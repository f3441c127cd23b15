# Y*gov: models and proofs of its stateful core

A Dafny 4.11 project about the parts of Y*gov whose guarantees speak of every run or every input:
the parallel ingestion of audit events, the merging of contracts along a delegation path, the policy
cache, the approval queue, event routing and lineage, the timed mode of an agent, the boot gate and
the dispatch window, the identity stack and the capability tokens.

`dafny verify dfyconfig.toml` checks the whole project.

## How the model is laid out

One module per file. Where the source changes state step by step there is a class or a method with the
source's fields, branches and loops, proved against a specification function; the theorems are lemmas
about that function, over one call or over whole runs.

- `Partition`, `NearestNodes`, `IngestProtocol`, `IngestTheorems`, `IngestRun`: event ranges, top-k
  nodes and weights, the worker/writer protocol as interleaved steps, its theorems, and one run end to
  end. The queue is a bounded multiprocessing queue: a put takes a slot and lands in the producer's
  own buffer, a feeder moves it to the shared pipe, a get frees the slot. Items of different workers
  may therefore arrive in any order; a worker's own items keep theirs. The event table is frozen and
  its offsets start at 0.
- `Contracts`, `RestrictionLists`, `ContractTheorems`: contracts, what they permit, and the strictest-of-both merge. Rules of
  the kinds deny, deny_commands and invariant are matched by an arbitrary predicate. Paths and domains
  are read in two ways: the merge's own (raw prefix, equal domain) and the kernel's (path component
  boundaries, one extra dot-free label) on normalised paths and lower-case domains.
- `PolicyCache`: files are functions of time, and a call reads the clock, the stat and the content at
  three instants, so edits may fall between them.
- `ApprovalLog`, `ApprovalHistory`: the file as a list of lines, the ordered map it stands for, and the
  status of an id as a function of the history.
- `OmissionRouting`, `RoutingTheorems`, `Lineage`: the two caches of the adapter, what they mean as
  functions of the event history, and the diagnostics. A raw dictionary key is missing, null or text.
- `AgentMode`: the mode record; each tick is given its clock readings, Board messages and trigger
  findings in the order it reads them.
- `SessionGate`, `DispatchWindow`, `IdentityStack`, `Capabilities`, `ReloadAnswers`.

## Where the code and its documentation differ

The model follows the code; each point is a lemma.

- The merge is documented as never looser than either contract. `MergeNeverLooserIff` and `NeverLooserIff` say
  exactly when it is, for one merge and for a whole path. Two lists with nothing in common merge to the empty
  list, which restricts nothing (`ClashPermitsMore`); under the kernel's matching a sibling such as `/home/u2`
  also passes for a part of `/home/u` (`KernelPathsWitness`); rules of dimensions a merge does not carry are lost
  once two contracts meet (`OtherRulesAreLost`).
- It is documented as an intersection, and can also be stricter than one: under the kernel's matching a listed
  subdomain that both contracts allow can be lost (`KernelDomainsWitness`, `CheckedPathIsIntersection`).
- Approvals are documented as denied on timeout. A deadline that nobody observed denies nothing, and a later
  approval wins over a passed deadline, a denial and an observed expiry (`ApprovalAlwaysWins`, `LateApprovalCounts`).
- The approval file is documented as append-only; a status update that changes anything rewrites it
  (`UpdateAppendsIff`, `UpdateRewritesLine`).
- `debug_routing` is documented as not injecting anything; for a spawn or a handoff with a ticket it
  registers the ticket (`DebugLeavesCachesIff`, `DebugRegistersTicket`). `diagnose_event` ignores a manager's
  latest child (`DiagnosisPredictsIff`, `DiagnosisMissesChild`).
- The five-minute idle timeout of break_glass cannot see the silence before a tick (`IdleTimeoutIff`,
  `SilenceKeepsBreakGlass`), and the 20-minute cap restarts with each new trigger (`CapRestartsForever`).
- The identity-stack timeout is documented to measure an unchanged stack; pushes and pops never stamp it
  (`TimeoutIgnoresPushes`), so a fresh delegation can be popped (`FreshPushTimesOut`); `TimeoutFindsStaleIff`
  says when the two meanings agree.
- Boot events stored by another process after the first lookup of a session are never noticed
  (`LateStoreUnnoticedIff`, `LateContinuationIsRefused`); `EarlyHydrationNeverOpens` says when this locks the session
  for good.
- A token that expires exactly at a reload is live for a check and dropped by the load
  (`ReloadAtExpiryDropsLiveToken`; `ReloadKeepsAnswersIff` says when that shows).

## Model

| member | source | states |
|---|---|---|
| Partition.PartitionRange | scripts/cieu_to_brain_batch.py:98-113 | the parts tile [0,total), none is empty, sizes differ by at most one and never increase, and there are min(total, workers) of them |
| Partition.TilesOnce | scripts/cieu_to_brain_batch.py:98-113 | every index of the range lies in exactly one part |
| NearestNodes.StableSortUnique | scripts/cieu_to_brain_batch.py:136-137 | ascending order plus stable ties determine the sorted list, so the model's sort stands for any stable sort |
| NearestNodes.StableSortSorts | scripts/cieu_to_brain_batch.py:136-137 | the sort is ascending, stable and keeps every element |
| NearestNodes.TopKNearest | scripts/cieu_to_brain_batch.py:128-137 | the selected nodes come nearest first and no node left out is nearer than one kept, for every k, negative included |
| NearestNodes.KeptCount | scripts/cieu_to_brain_batch.py:137 | min(k, nodes) nodes are kept for k from zero up, and nodes less the absolute value of k, or none, for a negative k |
| NearestNodes.TopKFromCachedNodes | scripts/cieu_to_brain_batch.py:128-137 | the scoring loop yields the top k of all cached nodes, and how many those are |
| NearestNodes.WeightFalls | scripts/cieu_to_brain_batch.py:160-161 | weights lie in [0.01,1], never grow with distance, and are the reciprocal of 1+distance between 0 and 99 |
| IngestProtocol.StepInv | scripts/cieu_to_brain_batch.py:140-233 | every step of worker, feeder, writer or parent keeps the invariant: per worker, received plus piped plus buffered is exactly what it put, in order; the queue is within its bound; fewer than 500 rows are uncommitted |
| IngestTheorems.NeverStuck | scripts/cieu_to_brain_batch.py:140-233 | every state of a run short of its end has an enabled step that is not a failure |
| IngestTheorems.StepDecreases | scripts/cieu_to_brain_batch.py:140-233 | each step lowers a global measure |
| IngestTheorems.RunsAreBounded | scripts/cieu_to_brain_batch.py:348-377 | no run is longer than the measure of its first state |
| IngestTheorems.MaximalRunsComplete | scripts/cieu_to_brain_batch.py:348-377 | a run that cannot go on has joined every worker and the writer |
| IngestTheorems.ExitMeansDrained | scripts/cieu_to_brain_batch.py:198-202 | with all sentinels counted every worker is finished, all it sent has arrived, and the queue is empty |
| IngestTheorems.ExitDelivers | scripts/cieu_to_brain_batch.py:154-233 | at writer exit the committed rows are exactly those of the events each worker sent, a prefix of its partition if it raised, the whole if not; the total counts them |
| IngestTheorems.ExitDeliversAll | scripts/cieu_to_brain_batch.py:154-233 | when no worker raises every row of every worker is committed once |
| IngestTheorems.ArrivalKeepsPartitionOrder | scripts/cieu_to_brain_batch.py:154-177 | what the writer has received of a worker is a prefix of what it sent, in partition order |
| IngestTheorems.CommitsInBatches | scripts/cieu_to_brain_batch.py:214-228 | the table grows only by commits of at least 500 rows or by the last flush |
| IngestTheorems.WorkerMayRaise | scripts/cieu_to_brain_batch.py:173-177 | a worker may fail before any of its events and then puts no further batch |
| IngestTheorems.QueueHolds | scripts/cieu_to_brain_batch.py:348 | in every reachable state the queue holds at most one item per event and one per worker |
| IngestRun.Activate | scripts/cieu_to_brain_batch.py:155-171 | the worker's loop body builds the event's rows from its nearest nodes |
| IngestRun.EventRow | scripts/cieu_to_brain_batch.py:159-168 | each row names its event and session and weights one of the nodes by that node's distance |
| IngestRun.EventRowsNearestFirst | scripts/cieu_to_brain_batch.py:159-168 | rows come nearest node first and weights never rise |
| IngestRun.WorkerItems | scripts/cieu_to_brain_batch.py:154-172 | a worker that does not raise puts its partition's events in order |
| IngestRun.WriterProcess.Take | scripts/cieu_to_brain_batch.py:199-221 | one turn of the writer's loop: count a sentinel or add rows and commit at 500 |
| IngestRun.WriterProcess.Drain | scripts/cieu_to_brain_batch.py:180-233 | the writer takes items up to the last sentinel it waits for and no further, and flushes the rest |
| IngestRun.SlicesTile | scripts/cieu_to_brain_batch.py:344-370 | the parts' items side by side are the items of the whole range |
| IngestRun.JobMatchesWorkers | scripts/cieu_to_brain_batch.py:362-370 | each worker of the job puts what its own read of the table yields |
| IngestRun.PartitionedRunDelivers | scripts/cieu_to_brain_batch.py:327-406 | whatever the interleaving, a run without a failure over the parts of a list of batches commits exactly the rows of the list |
| IngestRun.ParallelRunIngestsEveryEvent | scripts/cieu_to_brain_batch.py:327-406 | for every worker count and interleaving without a failure the committed rows are the multiset of top-k activations of all events, and the total is min(k, nodes) per event, or what a negative k leaves |
| IngestRun.QueueNeverFull | scripts/cieu_to_brain_batch.py:348 | below 30000 slots no put ever waits: ten slots stay free in every reachable state |
| Contracts.IntersectPathPrefixes | ystar/adapters/hook.py:512-525 | the nested loops keep exactly the prefix intersection of the two lists |
| Contracts.MergeValueRanges | ystar/adapters/hook.py:528-564 | the loop over keys yields the narrower range per key and drops ranges that bound nothing |
| Contracts.ComputeEffectiveContract | ystar/adapters/hook.py:434-449 | the loop folds the merge over the path, root first |
| RestrictionLists.PrefixIntersection | ystar/adapters/hook.py:512-525 | a path has a prefix in the intersection iff it has one in each list |
| RestrictionLists.IntersectPrefixesLaws | ystar/adapters/hook.py:512-525 | the intersection is commutative and idempotent as sets |
| RestrictionLists.FoldIsIntersectionIff | ystar/adapters/hook.py:434-449 | the fold of a list dimension along any path allows exactly what every list allows iff no step meets two restrictions with nothing in common |
| ContractTheorems.EffectiveLists | ystar/adapters/hook.py:434-449 | the effective contract's path and domain lists are those folds |
| ContractTheorems.FoundIffEffective | ystar/adapters/hook.py:427-449 | there is an effective contract iff the agent's path is not empty |
| RestrictionLists.KernelPathsExactIff | ystar/kernel/engine.py:487-504 | under the kernel's matching the path intersection is exact iff every entry it keeps lies within both lists |
| RestrictionLists.KernelPathsWitness | ystar/adapters/hook.py:520-524 | a sibling directory that shares a name prefix is let through |
| RestrictionLists.KernelDomainsExactIff | ystar/kernel/engine.py:197-220 | under the kernel's matching common domains never allow too much, and are exact iff no listed subdomain is lost |
| RestrictionLists.KernelDomainsWitness | ystar/adapters/hook.py:484-487 | a subdomain both lists allow is not allowed by their common entries |
| RestrictionLists.KernelPathsFoldIff | ystar/adapters/hook.py:434-449 | under the kernel's matching the path fold along any path never forbids too much, and allows exactly what every list allows iff no step clashes and each folded entry lies within every list |
| RestrictionLists.KernelDomainsFoldSoundIff | ystar/adapters/hook.py:434-449 | under the kernel's matching the domain fold along any path allows no more than every list iff no step clashes, later repairs included |
| RestrictionLists.KernelDomainsFoldIff | ystar/adapters/hook.py:434-449 | and allows exactly what every list allows iff moreover no listed subdomain is lost |
| ContractTheorems.PrefixStepExactIff | ystar/adapters/hook.py:471-492 | under the merge's own reading a step is exact iff neither its paths nor its domains clash |
| ContractTheorems.KernelStepExactIff | ystar/adapters/hook.py:471-492 | under the kernel's reading a step is exact iff it neither clashes, nor meets off a component boundary, nor drops a listed subdomain |
| ContractTheorems.RangesMeet | ystar/adapters/hook.py:528-564 | the merged ranges allow a call's numbers iff both do |
| ContractTheorems.MergedRangeAllows | ystar/adapters/hook.py:528-564 | two ranges for one number allow together what lies in both, ends included |
| ContractTheorems.MergePermits | ystar/adapters/hook.py:452-509 | an exact merge permits an action iff both contracts do, in the six dimensions |
| ContractTheorems.EffectivePermits | ystar/adapters/hook.py:405-449 | the effective contract permits an action iff every contract on the path does |
| ContractTheorems.CheckedPathIsIntersection | ystar/adapters/hook.py:405-449 | for either reading and any delegation path: the effective contract permits exactly what every contract on the path permits, whatever the rules match, iff the path's lists pass the check |
| ContractTheorems.NeverLooserIff | ystar/adapters/hook.py:463 | the effective contract is never looser than any contract on the path, in the six dimensions, iff no step clashes and, for the kernel, each folded path entry lies within every list |
| ContractTheorems.MergeNeverLooserIff | ystar/adapters/hook.py:463 | one merge is never looser than either contract iff its lists do not clash, for the kernel do not meet off a component boundary, and neither has rules the merge drops |
| ContractTheorems.ClashPermitsMore | ystar/adapters/hook.py:475-480 | two path restrictions with nothing in common permit together what neither permits |
| ContractTheorems.ExtensionOnlyNarrows | ystar/adapters/hook.py:463 | extending a path never permits more than the path or the newcomer did iff the last step passes the check |
| ContractTheorems.MergeCommutes | ystar/adapters/hook.py:452-509 | merging is commutative |
| ContractTheorems.MergeIdempotent | ystar/adapters/hook.py:452-509 | merging a contract with itself drops only what every merge drops |
| ContractTheorems.MergeAssociates | ystar/adapters/hook.py:452-509 | contracts that overlap when merged from the left do so from the right, and then both orders give the same contract |
| ContractTheorems.ClashBreaksAssociativity | ystar/adapters/hook.py:471-480 | with a clash the order of merging changes the result |
| ContractTheorems.OtherRulesAreLost | ystar/adapters/hook.py:501-509 | for a rule of another dimension there is an action it forbids alone and any merge with a second contract permits |
| PolicyCache.PolicyStore.GetOrBuildPolicy | ystar/adapters/hook.py:1521-1579 | the two-level lookup: result and new caches for every outcome of exists, stat and build |
| PolicyCache.NoPolicyIff | ystar/adapters/hook.py:1540-1579 | in any state of the caches a call returns no policy iff the file was not found, or it was not throttled and the stat failed or met a new mtime whose build raised |
| PolicyCache.PolicyAlwaysReturned | ystar/adapters/hook.py:1540-1579 | in every run a call that finds the file, and a file that compiles, returns a policy |
| PolicyCache.EditTakesEffect | ystar/adapters/hook.py:1570-1575 | a stat that meets a new mtime returns what the file compiles to then, and so do the throttled calls after it |
| PolicyCache.EditIsRebuilt | ystar/adapters/hook.py:1570-1575 | a file edited between two calls ten seconds apart is recompiled |
| PolicyCache.CallWrites | ystar/adapters/hook.py:1560-1575 | which calls stamp the throttle and which store a policy, failing builds included |
| PolicyCache.FreshIffMtimesVouch | ystar/adapters/hook.py:1545-1575 | over all runs of calls and edits: every policy returned is what the file compiled to less than one second before the call's clock reading, or during the call, iff a file that shows an mtime again a second or more later still compiles, within every second that ends less than a second after, to what it compiled to in between |
| PolicyCache.HonestMtimesVouch | ystar/adapters/hook.py:1564-1568 | mtimes that determine contents and are not reused after another content are enough for that |
| PolicyCache.KeepInv | ystar/adapters/hook.py:1549-1578 | every call keeps the invariant that ties each cached policy and each throttle entry to the instants they were read at |
| PolicyCache.ProbeReturnsOldPolicy | ystar/adapters/hook.py:1552-1568 | a build, a stat that meets the old mtime and a throttled call return what was built, whatever the file holds by then |
| PolicyCache.UnchangedFileIsNotRecompiled | ystar/adapters/hook.py:1564-1568 | an unchanged mtime returns the cached policy whatever the compiler would say |
| PolicyCache.ThrottledCallsOnlyRead | ystar/adapters/hook.py:1552-1558 | within a second of a stat the file is not looked at and nothing changes |
| PolicyCache.ReusedMtimeServesStalePolicy | ystar/adapters/hook.py:1560-1575 | an mtime reused around an edit between stat and build makes the cache serve a policy the file no longer has |
| ApprovalLog.RewriteIsIdentity | ystar/adapters/connector.py:234-272 | rewriting what was loaded is the identity on the map, malformed and superseded lines included |
| ApprovalLog.UpdateRefines | ystar/adapters/connector.py:251-272 | a status update of the file is the update of the map, unknown ids included |
| ApprovalLog.SubmitRefines | ystar/adapters/connector.py:147-178 | an appended record is assigned in the map, and is added last iff its id is new |
| ApprovalLog.UpdateAppendsIff | ystar/adapters/connector.py:251-272 | a status update keeps the file as a prefix iff the id is unknown, or the file has one well-formed line per id and the record already stands so; then nothing changes |
| ApprovalLog.UpdateRewritesLine | ystar/adapters/connector.py:251-272 | the first approval of the only record rewrites its line |
| ApprovalLog.ApprovalQueue.LoadAll | ystar/adapters/connector.py:234-249 | the loader keeps the latest record per id at the place of the first |
| ApprovalLog.LoadedIffRecorded | ystar/adapters/connector.py:234-249 | an id is loaded iff some well-formed line records it, malformed lines anywhere notwithstanding |
| ApprovalLog.LoadIsLastLine | ystar/adapters/connector.py:234-249 | its record is that of its last line |
| ApprovalLog.LoadKeepsFirstOrder | ystar/adapters/connector.py:234-249 | records come in the order of their ids' first lines |
| ApprovalLog.ApprovalQueue.ListPending | ystar/adapters/connector.py:180-190 | returns exactly the pending unexpired records in log order and expires every overdue one, although each iteration rewrites the file |
| ApprovalLog.StillPendingIs | ystar/adapters/connector.py:180-190 | the listing returns exactly the pending records whose deadline has not passed |
| ApprovalLog.StillPendingInOrder | ystar/adapters/connector.py:180-190 | in log order |
| ApprovalLog.IdleListingWritesNothing | ystar/adapters/connector.py:180-190 | a listing that finds nothing overdue does not touch the file |
| ApprovalLog.ExpireStep | ystar/adapters/connector.py:180-190 | each iteration still finds its snapshot's record at its place |
| ApprovalLog.ListingLeavesNothingOverdue | ystar/adapters/connector.py:180-190 | after a listing nothing pending has expired and all other records are as they were |
| ApprovalLog.ApprovalQueue.CheckStatus | ystar/adapters/connector.py:210-221 | the status at a time, expiring the record if that time is past its deadline |
| ApprovalLog.ApprovalQueue.ResumeAfterApproval | ystar/adapters/connector.py:274-299 | proceeds only when the status is approved, else reports it |
| ApprovalHistory.StatusIsHistory | ystar/adapters/connector.py:180-221 | after any history a record's status is the latest approval or denial, else expired if it was pending and someone looked past its deadline, else what it was |
| ApprovalHistory.CheckStatusIsHistory | ystar/adapters/connector.py:210-221 | the same for check_status over a whole run; never pending past the deadline; approved iff the latest decision is an approval |
| ApprovalHistory.AnswersAreHistory | ystar/adapters/connector.py:210-221 | from the empty queue, resubmissions included: no answer iff no operation submitted the id, else the verdict on what happened since its latest submission |
| ApprovalHistory.ResumesIff | ystar/adapters/connector.py:274-299 | a resumption proceeds iff the id was submitted and the latest decision since is an approval |
| ApprovalHistory.OneRequestsLife | ystar/adapters/connector.py:192-221 | a request is pending up to its deadline and expired after it, unless denied or approved |
| ApprovalHistory.NeverPendingAgain | ystar/adapters/connector.py:210-272 | once the queue has answered a query with anything but pending, no later query is answered with pending, whatever happens in between |
| ApprovalHistory.ApprovalAlwaysWins | ystar/adapters/connector.py:192-221 | after an approval, whatever came before it, check_status answers approved at every time iff the latest decision since, if any, is not a denial |
| ApprovalHistory.LateApprovalCounts | ystar/adapters/connector.py:192-221 | a request denied and long overdue is approved by one late approval |
| ApprovalHistory.RunsLoseNothing | ystar/adapters/connector.py:147-272 | no run with fresh ids loses a record or changes anything but status, operator and note |
| ApprovalHistory.SubmitKeepsIff | ystar/adapters/connector.py:160 | a submission keeps every record iff its id is new or replaces an equal request |
| OmissionRouting.OmissionAdapter.ResolveEntityId | ystar/adapters/omission_adapter.py:716-780 | the entity and both caches after resolving any event |
| OmissionRouting.OmissionAdapter.IngestSpawnDual | ystar/adapters/omission_adapter.py:306-344 | the routes and roots a spawn registers; one that names nobody is translated like any other event |
| OmissionRouting.OmissionAdapter.IngestRaw | ystar/adapters/omission_adapter.py:225-268 | the caches and the entity of any raw event |
| OmissionRouting.OmissionAdapter.DebugRouting | ystar/adapters/omission_adapter.py:635-648 | the predicted entity, and the cache changes it makes |
| RoutingTheorems.CachesReadHistory | ystar/adapters/omission_adapter.py:306-344 | after any history the cache holds for every key what the latest event that wrote it bound |
| RoutingTheorems.RoutedByHistory | ystar/adapters/omission_adapter.py:752-776 | after any history a fulfilment event without a ticket goes to what was last written for its manager's children, else for its agent, and to the session iff nothing was |
| RoutingTheorems.BindingsFiledUnderBound | ystar/adapters/omission_adapter.py:735-750 | a spawn or handoff that names someone is filed under the one it binds |
| RoutingTheorems.ReportsFollowBinding | ystar/adapters/omission_adapter.py:735-776 | after any history, and the bound one's next unticketed report is filed there too |
| RoutingTheorems.OthersFiledUnderSession | ystar/adapters/omission_adapter.py:752-780 | any other event of a known type goes to its ticket; without one, and if it is no fulfilment, to its session, else its agent |
| RoutingTheorems.AbsentAgentsHaveNames | ystar/adapters/omission_adapter.py:668-690 | how absent and null fields are read |
| RoutingTheorems.FulfillmentTypesAre | ystar/adapters/omission_adapter.py:33-119 | the fulfilment types are the platform's types but for three, and the managers' are two of them |
| RoutingTheorems.RoutesAsBoundIff | ystar/adapters/omission_adapter.py:752-776 | a manager's route is its most recent child, and an agent's the entity last bound to it, iff the latest event to write the cache key was of that kind or repeated the same entity |
| RoutingTheorems.UnreservedRoutes | ystar/adapters/omission_adapter.py:762-767 | so it is for every agent not named like an internal key and every manager whose internal key no event binds |
| RoutingTheorems.ReservedIdHijacksRoute | ystar/adapters/omission_adapter.py:762-767 | a child named like an internal key takes over a manager's route |
| RoutingTheorems.DiagnosisPredictsIff | ystar/adapters/omission_adapter.py:502-540 | for a fulfilment event diagnose_event names the entity ingestion uses iff the event carries a ticket, or someone to route to is named or cached and, for a manager, no child is cached other than the manager's own route |
| RoutingTheorems.DiagnosisMissesChild | ystar/adapters/omission_adapter.py:502-540 | after a spawn the manager's report is diagnosed to the session and ingested to the child |
| RoutingTheorems.OtherDiagnosesIff | ystar/adapters/omission_adapter.py:502-526 | for events that are no fulfilment: right for a spawn, for a handoff unless ticket and child differ, else iff it carries a ticket |
| RoutingTheorems.FailureIsHistory | ystar/adapters/omission_adapter.py:502-560 | after any history: no entity iff neither event nor history names one, unknown actor iff no event bound the agent of a fulfilment or gave it a child |
| RoutingTheorems.UnknownIffUntranslated | ystar/adapters/omission_adapter.py:484-497 | an unknown-type diagnosis is given iff translation yields no event |
| RoutingTheorems.DebugPredictsFulfillment | ystar/adapters/omission_adapter.py:635-664 | debug_routing predicts every fulfilment event and changes no cache |
| RoutingTheorems.DebugNamesOthers | ystar/adapters/omission_adapter.py:635-664 | for any other type it answers the ticket, else the session, else the agent |
| RoutingTheorems.DebugLeavesCachesIff | ystar/adapters/omission_adapter.py:735-750 | exactly when debug_routing leaves the caches alone |
| RoutingTheorems.DebugRegistersTicket | ystar/adapters/omission_adapter.py:635-648 | asking about a handoff with a new ticket changes where a later event is routed |
| Lineage.RegisterAgreesIff | ystar/adapters/omission_adapter.py:334-344 | a registration keeps the flattened cache equal to walking the links iff the session does not lead to the child and a child that already has children keeps its root |
| Lineage.DisciplinedRunsAgree | ystar/adapters/omission_adapter.py:736-750 | when each id is registered once and before it serves as a session, the cache equals the walk everywhere and the walk ends |
| Lineage.AdapterRootsAreTops | ystar/adapters/omission_adapter.py:334-344 | the same for the adapter's own spawns and handoffs |
| Lineage.RootsAreFixedPoints | ystar/adapters/omission_adapter.py:818-819 | cached roots are fixed points |
| Lineage.CycleNeverEnds | ystar/adapters/omission_adapter.py:736-741 | a walk that returns to its start never ends |
| AgentMode.AgentModeManager.DoTick | scripts/agent_mode_manager.py:253-287 | the stored and returned record after a tick, for every combination of readings |
| AgentMode.TickIsExactly | scripts/agent_mode_manager.py:253-287 | the whole record after a tick from each of the three modes, with the 900, 300 and 1200 seconds written out |
| AgentMode.AutonomousLasts | scripts/agent_mode_manager.py:231-287 | over any run of ticks autonomous lasts, with its entry time, while the Board is silent and no trigger is found |
| AgentMode.ReasonsInOrder | scripts/agent_mode_manager.py:216-251 | exactly when each reason to revoke is given |
| AgentMode.RunsStayWellFormed | scripts/agent_mode_manager.py:253-379 | every run of ticks, forced entries and revokes keeps the record well formed |
| AgentMode.EnforcerHonoursHardCap | ystar/adapters/boundary_enforcer.py:126-166 | in every run the enforcer reads break_glass no later than its entry plus 20 minutes, and reads every unexpired record as stored |
| AgentMode.BreakGlassLastsTwentyMinutes | ystar/adapters/boundary_enforcer.py:126-166 | the enforcer reads break_glass for 1200 seconds from its entry, then standard |
| AgentMode.BoardMessageIsFinal | scripts/agent_mode_manager.py:225-229 | no tick returns an elevated mode entered before the Board message it saw, and an elevated mode before it is revoked |
| AgentMode.FutureStampFailsIff | scripts/agent_mode_manager.py:272-285 | with a stamp in the future the promise fails exactly when the tick enters a mode from standard |
| AgentMode.IdleTimeoutIff | scripts/agent_mode_manager.py:236-239 | a tick revokes for idleness iff more than five minutes pass inside that tick |
| AgentMode.SilenceKeepsBreakGlass | scripts/agent_mode_manager.py:262-267 | a tick after 999 s of silence leaves break_glass on |
| AgentMode.ClaimsAreCapped | scripts/agent_mode_manager.py:216-287 | exactly when a break_glass claim survives a tick, and exactly when break_glass follows a tick: a surviving claim or a newly found trigger |
| AgentMode.CapRestartsForever | scripts/agent_mode_manager.py:280-285 | alternating triggers keep break_glass up for a run of any length |
| SessionGate.ProtocolTracker.CheckBehavior | ystar/adapters/boundary_enforcer.py:2309-2347 | the seen events, the written events and the decision after any call |
| SessionGate.SeenOnlyGrows | ystar/adapters/boundary_enforcer.py:934-945 | over any run seen sets only grow and no lifecycle event is written twice |
| SessionGate.SeenIsHistory | ystar/adapters/boundary_enforcer.py:914-945 | after any run of the process the events seen of a session are those stored at its first lookup and those the process did since, and the completion mark is there iff stored then or all three are |
| SessionGate.GateIsHistory | ystar/adapters/boundary_enforcer.py:957-1033 | at the end of any run a call of a real session passes iff it is whitelisted, the mark was stored at the first lookup, or session_start was and each of the other two events was stored by then or done by this process |
| SessionGate.ClosedGateAdmits | ystar/adapters/boundary_enforcer.py:947-1008 | while a real session has not booted exactly the calls of the whitelist pass, each spelled out |
| SessionGate.DetectedCalls | ystar/adapters/boundary_enforcer.py:2316-2330 | which calls count as reading the continuation and as asking for the obligations |
| SessionGate.WrittenIsHistory | ystar/adapters/boundary_enforcer.py:934-945 | after any run the process has written exactly the events it saw and did not find stored at the first lookup |
| SessionGate.OtherSessionsPass | ystar/adapters/boundary_enforcer.py:983-989 | sessions without an id, unknown ones and those of tests always pass |
| SessionGate.FirstLookDecides | ystar/adapters/boundary_enforcer.py:914-945 | what three first lookups let through and write |
| SessionGate.TwoCallsOpenTheGate | ystar/adapters/boundary_enforcer.py:2316-2338 | with session_start seen, a continuation read and an obligations call open the gate for good, in any order and with anything in between |
| SessionGate.WhitelistedPairExists | ystar/adapters/boundary_enforcer.py:947-954 | both of those calls are whitelisted, so a session whose session_start was seen can always open its gate |
| SessionGate.LateStoreUnnoticedIff | ystar/adapters/boundary_enforcer.py:914-931 | with all three events stored or done by now, a call is still refused iff it is not whitelisted, the mark was not stored at the first lookup, and some event was neither stored then nor done here |
| SessionGate.LateContinuationIsRefused | ystar/adapters/boundary_enforcer.py:914-931 | a session first looked up without its continuation is refused a write although the store holds all three events |
| SessionGate.EarlyHydrationNeverOpens | ystar/adapters/boundary_enforcer.py:914-931 | a session already looked up admits only whitelisted calls for the rest of the process, whatever is stored and called, iff that lookup found neither session_start nor the mark |
| DispatchWindow.DispatchTracker.CheckParallelDispatch | ystar/adapters/boundary_enforcer.py:1405-1466 | prune, decide and record one dispatch |
| DispatchWindow.PruningNeverChangesDecisions | ystar/adapters/boundary_enforcer.py:1407-1466 | dropping history never changes a decision against the full log, and a dispatch is refused iff the last accepted one is 1 to 30 seconds old |
| DispatchWindow.AcceptedIff | ystar/adapters/boundary_enforcer.py:1405-1466 | over any run the rule accepts a dispatch iff the last one it accepted of that dispatcher does not exist or lies under 1 second or at least 30 seconds back |
| DispatchWindow.AcceptedDispatchesAreSpaced | ystar/adapters/boundary_enforcer.py:1419-1463 | two dispatches of one dispatcher that the rule accepts with none accepted in between are under 1 second or at least 30 seconds apart |
| DispatchWindow.RemembersLastMinute | ystar/adapters/boundary_enforcer.py:1405-1466 | right after an attempt the dispatcher's history is exactly its dispatches accepted in the last 60 seconds |
| IdentityStack.SessionConfig.PopAgent | ystar/session.py:712-764 | the stack, legacy field and returned agent after a pop, pops that do nothing included |
| IdentityStack.StackIsBasePlusOpen | ystar/session.py:668-764 | during any run the stack is where it started plus the open pushes |
| IdentityStack.WellNestedRestores | ystar/session.py:668-764 | any well-nested sequence restores the stack and the current agent |
| IdentityStack.CurrentIsInnermost | ystar/session.py:645-666 | the agent pushed last and not yet popped is current |
| IdentityStack.SetReplacesAll | ystar/session.py:767-782 | setting an agent leaves it alone on the stack with what is opened since |
| IdentityStack.TimeoutReturnsToRoot | ystar/session.py:825-853 | a timeout that fires leaves the root alone, however deep the stack was, and does not fire again within its limit |
| IdentityStack.EmptyConfigFallsBack | ystar/session.py:645-695 | with none of the keys the agent is "agent", under pushes and after pops too |
| IdentityStack.PushPopRestoresIff | ystar/session.py:683-695 | a push and its pop restore the current agent iff the stack list is not empty and the bootstrapped id is not empty |
| IdentityStack.RootIsConstant | ystar/session.py:668-853 | the root agent is constant over every run of push, pop and timeout |
| IdentityStack.MirrorsAfterIff | ystar/session.py:693-696 | the legacy field mirrors the stack top after an operation iff the operation wrote it or it did before |
| IdentityStack.RunsKeepMirroring | ystar/session.py:668-853 | once mirrored, always mirrored |
| IdentityStack.TimeoutIgnoresPushes | ystar/session.py:820-831 | the timeout measures from its own last firing, whatever was pushed or popped since |
| IdentityStack.TimeoutFindsStaleIff | ystar/session.py:800-853 | after any run the timeout fires on every stack unchanged for longer than the limit, and exactly on those iff there is nothing to pop, it fired itself within the limit, or no change fell within it |
| IdentityStack.FreshPushTimesOut | ystar/session.py:820-831 | a delegation one second old is popped by a check with a limit of five minutes |
| IdentityStack.UnstampedCountsFromZero | ystar/session.py:820-825 | a stack never timed out before is measured from time zero |
| Capabilities.CapabilityEngine.Check | ystar/capabilities.py:170-218 | the search loops allow a request iff a persistent capability or a live token of the agent matches |
| Capabilities.CapabilityEngine.Revoke | ystar/capabilities.py:259-283 | removes exactly the pair's tokens and reports whether there were any |
| Capabilities.CapabilityEngine.LoadAt | ystar/capabilities.py:98-131 | loading keeps the tokens without expiry or expiring later |
| Capabilities.GrantsCover | ystar/capabilities.py:285-320 | a directory grant covers the directory and what is below it and nothing beside it; star and empty scope cover the action; other scopes only themselves |
| Capabilities.CheckNormalizes | ystar/capabilities.py:181-186 | check looks up the normalised path, and a request without one as it is |
| Capabilities.GrantLives | ystar/capabilities.py:220-257 | a grant lives for its duration, last instant included, or for ever without one or with zero |
| Capabilities.GrantedDirectory | ystar/capabilities.py:170-257 | one granted directory allows its agent exactly the paths whose normal form is in it, while it lives |
| Capabilities.PersistentAlways | ystar/capabilities.py:188-196 | persistent capabilities count for their own agent alone, at any time |
| Capabilities.HeldIsHistory | ystar/capabilities.py:220-283 | the tokens held are the initial ones never revoked and the grants not revoked since |
| Capabilities.AnswersAreHistory | ystar/capabilities.py:170-283 | every answer of check as a function of the history |
| Capabilities.PruneKeepsLiveIff | ystar/capabilities.py:123-128 | pruning at T loses a token live then or later iff a token has the expiry zero that check takes for never, or expires at the very instant of the load |
| Capabilities.ReloadChangesNoAnswer | ystar/capabilities.py:98-168 | unless there is such a token, saving and reloading at T changes no answer at T or later |
| ReloadAnswers.BackedReloadKeepsAnswers | ystar/capabilities.py:98-320 | however paths are normalised, a save and a reload leave every answer as it was when each token dropped alive is covered by one grant its agent keeps |
| ReloadAnswers.ReloadKeepsAnswersIff | ystar/capabilities.py:98-320 | and only then, for every normalisation under which some requests normalise to the dropped tokens' probes |
| ReloadAnswers.GivenPathsReach | ystar/capabilities.py:181-186 | paths taken as given are such a normalisation |
| ReloadAnswers.CoversMeans | ystar/capabilities.py:285-320 | a grant that covers another, by comparing the two strings, matches every request the other matches |
| ReloadAnswers.ProbeTells | ystar/capabilities.py:285-320 | and one that matches the other's probe covers it, so covering piecemeal is never enough |
| Capabilities.HistorySurvivesReload | ystar/capabilities.py:98-283 | the same for every history of ordinary grants and revocations |
| Capabilities.ReloadAtExpiryDropsLiveToken | ystar/capabilities.py:123-128 | a token expiring exactly at the reload, the only one of its agent, answers its capability before and no longer after |
| Capabilities.RevokeIsLocal | ystar/capabilities.py:259-283 | revoking changes no other agent's answers and takes from its agent exactly the pair's tokens |

## Left out

- Files, SQLite and JSON: loading and saving are inverse on abstract records; a file is a value of a field.
- PolicyCache: runtime contract files, which write into the cached policy object, and the default path are not modelled; a call sees the file at three instants (existence, stat, content), and compiling reads it at one.
- Contracts: path normalisation, case folding and the extraction of paths and domains from parameters are taken as done; module and external scopes inside only_paths are not modelled; finding the path in the delegation tree is not modelled.
- IngestTheorems.NeverStuck: a writer whose database raises, a process killed before its sentinel, and a nonzero range start are not modelled.
- Projection and distance are parameters; floating point is modelled by real numbers.
- The approval queue's webhook, the override trail and the computation of the timeout are left out; ids are parameters, so collisions are covered.
- OmissionRouting: obligations, entities and governance events beyond their routing are left out, as are the warning texts and the ingestion of check results; field values are missing, null or text.
- AgentMode: the probes behind the triggers and the emitted audit events are left out; every tick may find any trigger.
- SessionGate: a process without a session config, which skips the gate, and denial records are left out; the store's contents at the first lookup of a session are a parameter.
- DispatchWindow: the tests for who and which tool the rule applies to are left out.
- IdentityStack: schema validation of the config file and audit events are left out.
- ReloadAnswers.ReloadKeepsAnswersIff: a dropped token some of whose probes no normalised request equals is outside the only-if half, because whether it shows then depends on the normaliser.
- Capabilities: path normalisation is a parameter; listing is left out.
