# Verified model of the effect-safety control plane

m365-secure-mcp lets an assistant read and, under signed policy, change a Microsoft 365
tenant. This project models the code that decides whether a write or a playbook node may
run, runs it at most once and classifies what happened, and the code that collects and
classifies the evidence those decisions rest on. It states, for every input and every run,
what that code guarantees. `dafny verify dfyconfig.toml` checks all of it.

| file | what it models |
|---|---|
| `PlaybookDag`, `PlaybookManifest` | playbook graphs, the validator's depth-first cycle check, `ordered_nodes`, and the runner's own order |
| `PlaybookRun` | one durable playbook row and any number of runners as a step machine: fetch, insert, checkpoint, dispatch, record, crash |
| `PlaybookSafety`, `PlaybookTheorems` | the inductive invariant of that machine and the theorems over whole runs |
| `PlaybookReplies` | what the records of a run tell about the executor's replies |
| `PlaybookApprovals` | the validator's transitive closure, its check on writes, and approvals before writes in every run |
| `PlaybookOverlap` | runners that overlap between fetch and first checkpoint |
| `PlaybookOutcomes` | how many calls a run takes |
| `PlaybookRunner` | the store and the runner as classes updated in place, proved to do what the step machine does |
| `GraphClient` | the retry loops and write counters against a server whose commits the client cannot see |
| `Plans`, `Effects` | exact change plans and grants; the trace to which every part of a deployment reports what it does |
| `Approval` | request and approval files, the signer's lifetime rule, the consumption ledger |
| `Authorization` | static validation of a policy against the manifests, and runtime authorization |
| `OperationalProfile` (with `UserProfile`) | the T1 user write as one effect protocol with an adversarial world and crashes |
| `ControlExceptions` | the control-library validator and exception matching |
| `Pagination` (with `Ordering`) | bounded page collection, shared budgets, sorted snapshots |
| `GrantDrift`, `CredentialPosture` | classification and counting of grants and credentials |
| `PathTemplates` | fixed Graph path templates and RFC 3986 |
| `PolicyNormalization` | canonical normalization of nested policy documents |
| `Readiness` | the two-node readiness playbook: halted reports and the correlation of evidence |

## How the world is modelled

Digests are injective, so a digest is represented by what it digests; comparing digests is
comparing values. A signature verifies exactly when it was made with the trusted key over
the same grant. A database row is a map entry with atomic update, a file is a map entry
that may hold garbage. Responses of Microsoft Graph, the clock, the executors, the policy
file and everything else that can change between two steps are parameters, so every
theorem holds for all of them. A process may die between any two durable or external
steps. Identifiers that are only compared are numbers; path segments, JSON text, object
keys, sort keys and workload references are strings, because their characters matter.

## What came out differently from the documentation

* `docs/OPERATOR_FOUNDATION.md` line 83 says that completed nodes do not run twice. That
  holds, with any crashes, for all runs in which no runner makes a first checkpoint from a
  record that another has replaced since it was fetched
  (`PlaybookTheorems.DispatchDiscipline`). The calls of one process are such runs also when
  they overlap in an executor's await, because from the fetch to the first checkpoint a call
  never yields (`PlaybookTheorems.CooperativeRunsAreUndisturbed`). Two processes can
  overlap there, and `replace` compares only status and context digest: a runner that
  fetched a RUNNING record marks its next node although another runner has completed that
  node meanwhile. `PlaybookOverlap.DisciplineExactly`: all interleavings are harmless
  exactly on playbooks of at most one node, so on no playbook a manifest accepts
  (`PlaybookOverlap.AcceptedPlaybookRunsTwice` is one with five nodes). Comparing the whole
  record removes the problem for every run (`DispatchDiscipline` again). What overlapping
  runners keep anyway is `PlaybookTheorems.StoredRowNeverGoesBack`,
  `PlaybookTheorems.PlannedIsLeftOnce` and `PlaybookApprovals.ApprovalComesFirst`.
* `ordered_nodes` lists a playbook in layers. That is the order in which the durable runner
  takes its nodes exactly if no node is listed before a smaller one that was free to run at
  that point (`PlaybookManifest.LayersAreTheRunnersOrderExactly`); a write that waits for
  its approval among nodes that wait for nothing is enough to break it
  (`PlaybookManifest.LayersAreNotTheRunnersOrder`).
* A Graph error without the `write_may_have_committed` flag always means that nothing was
  committed. What escapes the flag is a success answer on which the JSON decoder raises
  anything but its own error, after the commit: bytes that are not text in any JSON encoding
  (a `UnicodeDecodeError`), an integer of more than 4300 digits (a plain `ValueError`), or
  more nesting than the recursion limit (a `RecursionError`). The last two can be valid JSON
  within the byte limit. `GraphClient.UnflaggedCommitExactly` states exactly which
  conversations end so, `GraphClient.SlipperyAnswersFollowCommits` gives the three inputs,
  and `OperationalProfile.EntraOperations.Execute` carries the same condition.
* The never-synced fence tests `onPremisesSyncEnabled` for membership in true, false and
  null and then for being the value true. A JSON number that equals true (`1` or `1.0`)
  passes both tests, and such a user is read as if never synchronized
  (`OperationalProfile.SyncedUserIsReadExactly`); a list or an object raises a `TypeError`,
  which is not a security error.
* Each readiness baseline may hold 100 workloads and a report 100 targets, so two admissible
  baselines need not fit: the report of such a run fails its own validation and no report
  exists. `Readiness.Collect` says exactly when there is a report, and
  `Readiness.UnrelatedBaselinesDoNotFit` gives two baselines of 60.
* `step` refuses a checkpoint dated before the record's creation (`timestamps_are_aware`);
  such calls change nothing, and `PlaybookOutcomes.CompletesExactly` does not count them.

## Model

| member | source | states |
|---|---|---|
| `PlaybookManifest.ValidDag` | src/m365_secure_mcp/playbook_manifest.py:300-323 | the depth-first check accepts exactly the closed, acyclic graphs |
| `PlaybookManifest.CycleCheck.Visit` | src/m365_secure_mcp/playbook_manifest.py:312-320 | a visit either ranks everything below the node or proves that no ranking of the graph exists |
| `PlaybookManifest.OrderedNodes` | src/m365_secure_mcp/playbook_manifest.py:347-366 | the loop returns the layers of ready nodes and never meets its cycle error |
| `PlaybookManifest.LayersComplete` | src/m365_secure_mcp/playbook_manifest.py:117-138 | the layered order is a topological order: every node once, after its dependencies |
| `PlaybookManifest.LayersByLevel` | src/m365_secure_mcp/playbook_manifest.py:347-366 | nodes are listed by level, the length of the longest chain of dependencies below them, and within a level by ID |
| `PlaybookManifest.LayersAreTheRunnersOrderExactly` | src/m365_secure_mcp/playbook_manifest.py:347-366 | the layered order equals the runner's exactly if no node precedes a smaller one that was already free to run |
| `PlaybookManifest.LayersAreNotTheRunnersOrder` | src/m365_secure_mcp/playbook_manifest.py:347-366 | for every size from three nodes on, an approved write on which the two orders differ |
| `PlaybookDag.ScheduleIsLeastTopologicalOrder` | src/m365_secure_mcp/effectful_playbook.py:380-400 | always taking the least ready node yields the lexicographically least topological order |
| `PlaybookDag.RunnersOrderExactly` | src/m365_secure_mcp/effectful_playbook.py:380-400 | a topological order is the runner's exactly if nothing smaller could have come earlier |
| `PlaybookApprovals.TransitiveDependencies` | src/m365_secure_mcp/playbook_manifest.py:369-381 | the work list ends and finds exactly the nodes reached by dependency paths |
| `PlaybookApprovals.CheckWrites` | src/m365_secure_mcp/playbook_manifest.py:334-344 | it accepts exactly the playbooks in which every write has an approval for its contract and needs all of them |
| `PlaybookApprovals.ApprovalComesFirst` | src/m365_secure_mcp/effectful_playbook.py:352-495 | in every run, with any overlap, stale records and crashes, a write is handed to its executor only after every approval for its contract was recorded as completed |
| `PlaybookSafety.InvStep` | src/m365_secure_mcp/effectful_playbook.py:343-495 | every step of a runner keeps the full invariant of row, runners and log, as long as no stale checkpoint replaces a newer one |
| `PlaybookTheorems.DispatchDiscipline` | src/m365_secure_mcp/effectful_playbook.py:351-495 | over every run, with crashes, in which first checkpoints are made from the stored record (and every run under a whole-record compare): a node is dispatched again only after a recorded pause, never after a recorded completion; any dispatch without a recorded pause or completion ends all dispatching; `resumed` is truthful |
| `PlaybookTheorems.FirstDispatchesFollowLeastOrder` | src/m365_secure_mcp/effectful_playbook.py:380-415 | in the same runs the nodes dispatched so far, by first dispatch, are a prefix of the lexicographically least topological order |
| `PlaybookTheorems.StoredRecordIsSound` | src/m365_secure_mcp/effectful_playbook.py:352-413 | in every row of these runs at most one node is running or paused, started nodes have completed dependencies, run status and node states agree both ways, and the "no safe next node" error cannot occur |
| `PlaybookTheorems.CooperativeRunsAreUndisturbed` | src/m365_secure_mcp/effectful_playbook.py:343-495 | runs whose calls overlap only while one awaits its executor, as those of one process do, are among them |
| `PlaybookTheorems.StoredRowNeverGoesBack` | src/m365_secure_mcp/effectful_playbook.py:222-308 | under any interleaving of stale runners and crashes the pinned digests never change, terminal rows stay as they are, and PLANNED is never restored |
| `PlaybookTheorems.PlannedIsLeftOnce` | src/m365_secure_mcp/effectful_playbook.py:275-308 | under any interleaving at most one checkpoint replaces a PLANNED row |
| `PlaybookReplies.OutcomeRecordsReply` | src/m365_secure_mcp/effectful_playbook.py:430-495 | every node status, run status and reason that a checkpoint records tells exactly which replies led to it: COMPLETED under RUNNING only for completion, PAUSED only for the matching pause, UNCERTAIN under PAUSED_UNCERTAIN for an exception or an uncertain result, each with its own reason; nothing else changes |
| `PlaybookReplies.DecideTells` | src/m365_secure_mcp/effectful_playbook.py:352-430 | from what a record shows: a call parks exactly the running nodes, takes the first paused node, else the first free one, completes only a run whose nodes are all completed, and stops at the four final statuses or an early clock |
| `PlaybookReplies.EveryResultWasReported` | src/m365_secure_mcp/effectful_playbook.py:430-495 | in every run, with stale records, overlap and crashes, a stored COMPLETED, PAUSED, HANDED_OFF or NEEDS_COMPENSATION stands for a report of exactly that node with the matching reply, after its executor had been called |
| `PlaybookReplies.NothingFollowsABadReply` | src/m365_secure_mcp/effectful_playbook.py:352-495 | in the runs of `DispatchDiscipline` a reply that is neither a completion nor a pause leaves a final status, and however the run goes on nothing is dispatched or written any more |
| `PlaybookRunner.ValidatedPlaybook` | src/m365_secure_mcp/effectful_playbook.py:324-341 | it passes exactly the contexts that pin the verified manifest, its playbook of that name and the digests this playbook pins, and then the playbook is acyclic; which refusal means what |
| `PlaybookRunner.DurablePlaybookStore.Ensure` | src/m365_secure_mcp/effectful_playbook.py:222-273 | an existing row is returned only under unchanged digests; a missing one is inserted as PLANNED; no other row changes |
| `PlaybookRunner.DurablePlaybookStore.Replace` | src/m365_secure_mcp/effectful_playbook.py:275-308 | the row is replaced exactly when status and context still match, and otherwise nothing changes |
| `PlaybookRunner.Choose` | src/m365_secure_mcp/effectful_playbook.py:352-430 | the loops over node states make the decision the step machine makes |
| `PlaybookRunner.EffectfulPlaybookRunner.ExecuteNode` | src/m365_secure_mcp/effectful_playbook.py:430-495 | dispatch and recording, cut off anywhere by a crash, leave row and log as the step machine does; what that is in terms of the reply is `OutcomeRecordsReply` |
| `PlaybookRunner.EffectfulPlaybookRunner.Step` | src/m365_secure_mcp/effectful_playbook.py:343-495 | one call equals its steps on the step machine up to the crash, touches one instance, keeps everything the theorems promise for the whole history, and never reports "no safe next node"; told from the row it found and the reply alone, a call that returns has changed nothing, parked a running node, completed the run, or marked the next node and recorded the reply to it |
| `PlaybookRunner.CutOffLeavesABeginning` | src/m365_secure_mcp/effectful_playbook.py:343-495 | wherever the process dies, the call has left a beginning of what the whole call leaves in the log |
| `PlaybookRunner.SoloIsSafe` | src/m365_secure_mcp/effectful_playbook.py:343-495 | any sequence of calls by one process at a time leaves a disciplined log, a sound row and first dispatches in order |
| `PlaybookOutcomes.CompletesExactly` | src/m365_secure_mcp/effectful_playbook.py:380-413 | whatever the outcomes COMPLETED and pauses and whatever the clocks: the run is COMPLETED_VERIFIED exactly when, of the calls whose clock has reached the first call's, those before the last completed all n nodes |
| `PlaybookOutcomes.CompletesInExactly` | src/m365_secure_mcp/effectful_playbook.py:380-413 | when every outcome is COMPLETED: exactly when n + 1 of the clock readings have reached the first |
| `PlaybookOverlap.DisciplineExactly` | src/m365_secure_mcp/effectful_playbook.py:286-298 | on an acyclic playbook all interleavings under the source's own compare keep the dispatch discipline exactly if there is at most one node |
| `PlaybookOverlap.CompletedNodesCanRunAgain` | src/m365_secure_mcp/effectful_playbook.py:286-298 | on every acyclic playbook of two or more nodes, a run of two overlapping runners that dispatches a node recorded as completed |
| `PlaybookOverlap.AcceptedPlaybookRunsTwice` | src/m365_secure_mcp/playbook_manifest.py:285-345 | such a playbook of five nodes that passes the graph checks |
| `GraphClient.Client.RequestJson` | src/m365_secure_mcp/graph.py:577-718 | the loop has exactly the conversation that `ReplyExactly`, `FailureExactly` and `RetriesExactly` describe, up to the answer the process lives to see; the three counters move by sends, confirmations and flags alone; every request of a write is recorded with what the server made of it |
| `GraphClient.Client.UploadDriveItem` | src/m365_secure_mcp/graph.py:375-477 | the same for file uploads, with their own body checks |
| `GraphClient.ConversationEnds` | src/m365_secure_mcp/graph.py:593-718 | every request but the last was answered with a retried status, at most one of them with a new token, and the reply is the classification of the last answer |
| `GraphClient.ReplyExactly` | src/m365_secure_mcp/graph.py:593-718 | from the script alone: {} exactly for a success within the limits that is 204 or empty, a value exactly for a success within the limits that decodes to that object, a decoder error exactly where the decoder fails, an authentication error exactly where the token is refused and cannot be replaced |
| `GraphClient.FailureExactly` | src/m365_secure_mcp/graph.py:608-716 | which failure a call ends in, and with which flag, in terms of status, declared length, size and body of the last answer |
| `GraphClient.RetriesExactly` | src/m365_secure_mcp/graph.py:600-653 | another request follows exactly after a first 401 whose token can be replaced, a 429, and for reads a timeout, 502, 503 or 504, while retries last |
| `GraphClient.WriteCommitsAtMostOnce` | src/m365_secure_mcp/graph.py:593-718 | for every script, retry bound, hidden server decision and moment of death a write commits at most once; a normal return means exactly one commit; an unflagged Graph error or an authentication error means none |
| `GraphClient.UnflaggedCommitExactly` | src/m365_secure_mcp/graph.py:608-716 | an unflagged failure follows a commit exactly when an attempt within the retry bound, all earlier ones having been repeated, meets a success answer within the size limits on which the decoder raises anything but its own error |
| `GraphClient.SlipperyAnswersFollowCommits` | src/m365_secure_mcp/graph.py:697-704 | the three kinds of such answers: not text, an integer too long, nested too deeply |
| `GraphClient.FlaggedMeansPossible` | src/m365_secure_mcp/graph.py:608-716 | the flag is raised only where some server would have committed |
| `GraphClient.CallsAreBounded` | src/m365_secure_mcp/graph.py:593-718 | at most max_retries + 1 sends and one refresh; "exhausted" exactly when the process lives to the last allowed attempt and that is the first 401 |
| `GraphClient.ReadsAreNeverFlagged` | src/m365_secure_mcp/graph.py:608-716 | reads never carry the flag |
| `Approval.ApprovalConsumptionStore.Consume` | src/m365_secure_mcp/change_safe.py:345-381 | one transaction burns and records an unused approval of this deployment, or changes nothing |
| `Approval.ExternalApprovalBroker.Prepare` | src/m365_secure_mcp/change_safe.py:429-466 | request files change only for a new, expired or different plan; every answer is what `PrepareExactly` says |
| `Approval.ExternalApprovalBroker.Validate` | src/m365_secure_mcp/change_safe.py:468-506 | the checks one after the other; every answer is what `ValidationTells` says |
| `Approval.PrepareExactly` | src/m365_secure_mcp/change_safe.py:429-466 | a live request of the same meaning is handed back unchanged; without one the file becomes a fresh request for this plan; which refusal means what; a refusal changes no file |
| `Approval.ValidationTells` | src/m365_secure_mcp/change_safe.py:468-506 | pending exactly without a binding or a file, the grant exactly for a current one signed with the trusted key for this plan, and which refusal means what |
| `Approval.SigningTells` | src/m365_secure_mcp/approval_cli.py:184-215 | which refusal of the signer means what, and that a bundle holds the given ID, the reviewed digest and its own digest and signature |
| `Approval.RepeatedPrepareKeepsBinding` | src/m365_secure_mcp/change_safe.py:429-466 | repeated calls with the same key and meaning before expiry get the identical binding, whatever other plans are prepared in between |
| `Approval.SignedLifetime` | src/m365_secure_mcp/approval_cli.py:184-207 | a signed grant lies inside the plan lifetime and lasts at most its TTL, and less only when the plan ends first |
| `Approval.SignedGrantValidatesExactly` | src/m365_secure_mcp/change_safe.py:468-506 | the round trip: the grant signed for a plan's request validates for that plan exactly while issued_at <= now < expires_at |
| `Approval.ApprovedPlanValidatesExactly` | src/m365_secure_mcp/change_safe.py:429-506 | prepare, sign, other plans, prepare again, validate: it validates with that grant exactly if the later call means the same, comes before the first plan expires and falls into the grant's lifetime |
| `Approval.ValidationIsExact` | src/m365_secure_mcp/change_safe.py:468-506 | whatever validates was signed with the trusted key for this exact plan and is current |
| `Approval.BurningTells` | src/m365_secure_mcp/change_safe.py:345-381 | an attempt is refused exactly for another deployment or a used ID, and only a success writes, and only its own entry |
| `Approval.FirstUseBurns` | src/m365_secure_mcp/change_safe.py:345-381 | over any sequence of attempts an approval is burnt exactly by the first attempt with its ID |
| `Approval.NoApprovalBurnsTwice` | src/m365_secure_mcp/change_safe.py:345-381 | no approval ID is burnt twice, whatever plan it names |
| `Authorization.ValidatePolicy` | src/m365_secure_mcp/governance.py:2062-2207 | the nested checks accept exactly the admissible policies |
| `Authorization.ReadAuthorizationExactly` | src/m365_secure_mcp/governance.py:1298-1356 | under an accepted policy a read is refused only for tenant, expiry, profile, enablement or a hardened override: never as a downgrade and never because an enabled contract is a write |
| `Authorization.ReadRefusalTells` | src/m365_secure_mcp/governance.py:1298-1356 | whatever the policy: a read passes exactly for tenant, time, read profile, enabled GET contract and automatic read on both sides |
| `Authorization.WriteAuthorizationExactly` | src/m365_secure_mcp/governance.py:1512-1607 | under an accepted policy a write is never refused as a downgrade; the exact refusals that remain; and it runs under the mode that the override names, or else the contract, never below the floor |
| `Authorization.AuthorizedModeExactly` | src/m365_secure_mcp/governance.py:1512-1607 | whatever the policy: an authorized write has the override, or else the contract mode, and a target in both allowlists that is not protected; a mode below the floor is a downgrade |
| `Authorization.WindowIsExact` | src/m365_secure_mcp/governance.py:1538-1555 | a write window holds the minutes from its start on, clockwise, before its end |
| `Authorization.PlaybookAuthorizationExactly` | src/m365_secure_mcp/governance.py:1442-1510 | under an accepted policy an enabled playbook is T0, automatic read and without writes, and is never refused as effectful or for a node; the exact refusals that remain |
| `Authorization.PlaybookRefusalTells` | src/m365_secure_mcp/governance.py:1442-1510 | whatever the policy: which refusal of a playbook means what, first check first |
| `Authorization.NeverBelowFloor` | src/m365_secure_mcp/contract_manifest.py:975-979 | the effective mode of every contract is at least its floor |
| `OperationalProfile.ReadUser` | src/m365_secure_mcp/entra_operations.py:224-273 | a reading is returned, and recorded, exactly when identity, types and user fences hold |
| `OperationalProfile.UserIsReadExactly` | src/m365_secure_mcp/entra_operations.py:224-273 | exactly the answers that are read: this user, a member, no trace of synchronization, a flag that is false, null or a number, and profile fields that are texts or null |
| `OperationalProfile.ReadingIsFaithful` | src/m365_secure_mcp/entra_operations.py:234-258 | a reading shows every field and the flag as the answer has them |
| `OperationalProfile.SyncedUserIsReadExactly` | src/m365_secure_mcp/entra_operations.py:234-273 | a user whose synchronization flag is or equals true is read exactly when the flag is a number and every other check passes |
| `OperationalProfile.EnsureNonPrivileged` | src/m365_secure_mcp/entra_operations.py:275-329 | it passes, and is recorded, exactly when all four role queries are empty lists |
| `OperationalProfile.RequestedFields` | src/m365_secure_mcp/entra_operations.py:204-216 | the body holds every supplied field and nothing else |
| `OperationalProfile.EntraOperations.Preflight` | src/m365_secure_mcp/entra_operations.py:357-418 | when preflight passes, and the plan, mode and snapshot it hands on |
| `OperationalProfile.PreflightExitTells` | src/m365_secure_mcp/entra_operations.py:357-418 | how preflight fails: the first thing that is wrong tells |
| `OperationalProfile.PlanIsForThisCall` | src/m365_secure_mcp/change_safe.py:699-762 | the plan binds contract, policy, operator, parameters, user state and exactly the fields that differ, and lives from its creation for the TTL |
| `OperationalProfile.EntraOperations.AuthorizationGate` | src/m365_secure_mcp/change_safe.py:802-884 | standing policy needs no grant, explicit plan a validated one, every other mode is refused |
| `OperationalProfile.GateTells` | src/m365_secure_mcp/change_safe.py:802-884 | what the gate decides in terms of the mode and of what the broker finds |
| `OperationalProfile.EntraOperations.Revalidate` | src/m365_secure_mcp/entra_operations.py:505-552 | freshness and the second round of checks pass exactly when nothing has changed |
| `OperationalProfile.RevalidationTells` | src/m365_secure_mcp/entra_operations.py:505-552 | which exit means what when something is no longer as it was |
| `OperationalProfile.ClearsExactly` | src/m365_secure_mcp/entra_operations.py:453-591 | the PATCH leaves exactly when governance allows it, both rounds of checks pass on equal readings under one policy and contract, the plan is fresh and approved as its mode demands, and the capsule is stored |
| `OperationalProfile.PlannedExit` | src/m365_secure_mcp/entra_operations.py:496-591 | in which order gate, second round, capsule and consumption decide how a call ends |
| `OperationalProfile.EntraOperations.Execute` | src/m365_secure_mcp/entra_operations.py:453-641 | what the parts record during the call is lawful: before every request two authorizations under one policy, two equal readings, two role checks, the stored capsule of what is sent to this user and, under an explicit plan, a burnt grant covering exactly this; under an explicit_plan override or contract nothing is sent without a consumed grant, under standing policy nothing is consumed, under any other mode nothing is sent; at most one commit; the requests of one PATCH to this user leave exactly when every check passed; how the call ends in every case; EXECUTED_VERIFIED exactly for a cleared call that survives, is accepted (204 included) and is confirmed by the read, and then there is one commit; every other exit without an uncertain record means none, unless the decoder failed on the answer |
| `OperationalProfile.ExitsAreSound` | src/m365_secure_mcp/entra_operations.py:585-641 | EXECUTED_VERIFIED exactly after an accepted PATCH and a read that shows every requested value; uncertainty exactly after a flagged error or an unconfirmed read; rejection exactly after an unflagged Graph error; other errors exactly for token and decoder |
| `OperationalProfile.SentCall` | src/m365_secure_mcp/entra_operations.py:553-641 | preparation, the requests of one conversation and the verifying read make a lawful call whose recorded commits are what its reply tells |
| `OperationalProfile.ApprovalCommitsAtMostOnce` | src/m365_secure_mcp/entra_operations.py:553-591 | across all calls and crashes an approval stands behind at most one committed request, counted over the recorded events |
| `OperationalProfile.OverlappingCallsCommitAtMostOnce` | src/m365_secure_mcp/entra_operations.py:553-591 | the same for overlapping calls of any number of processes that share one ledger |
| `ControlExceptions.Validate` | src/m365_secure_mcp/governance.py:721-753 | grouping by control and version rejects exactly the libraries with a foreign or overlapping exception |
| `ControlExceptions.OverlapExactly` | src/m365_secure_mcp/governance.py:745-753 | two exceptions overlap exactly if both select some one subject |
| `ControlExceptions.MatchingException` | src/m365_secure_mcp/governance.py:2042-2059 | the loop returns the first exception that applies |
| `ControlExceptions.FirstMatchTells` | src/m365_secure_mcp/governance.py:2042-2059 | the match is the first exception of this control and version, for all subjects or this one, that is issued and not expired, and there is none exactly if none is such |
| `ControlExceptions.KeysAreExact` | src/m365_secure_mcp/governance.py:649-654 | subject keys are equal exactly for equal subjects |
| `ControlExceptions.AtMostOneApplies` | src/m365_secure_mcp/governance.py:721-753 | in an accepted library at most one exception ever applies to a control, version and subject |
| `ControlExceptions.OrderDoesNotMatter` | src/m365_secure_mcp/governance.py:2042-2059 | the match is the same for every ordering of the exceptions |
| `ControlExceptions.MatchIsTheOnlyOne` | src/m365_secure_mcp/governance.py:2042-2059 | an exception is returned exactly when it applies and is unexpired |
| `Pagination.CollectCollection` | src/m365_secure_mcp/entra_permission_drift.py:172-218 | for every server the loop ends within the page bound and succeeds exactly on complete, well-formed chains within both bounds, with the concatenation of all pages |
| `Pagination.CollectExactly` | src/m365_secure_mcp/entra_app_credentials.py:314-370 | the shared loop of the three collectors finds exactly the complete collections |
| `Pagination.RecordsKeepTheirPlace` | src/m365_secure_mcp/entra_app_credentials.py:314-370 | every item of every page comes right after the items before it |
| `Pagination.HonestServersAreCollected` | src/m365_secure_mcp/entra_permission_drift.py:203-217 | for a server that answers a link the same way each time, freshness of links costs nothing: success exactly when the chain ends within the bounds |
| `Pagination.Budget.Draw` | src/m365_secure_mcp/entra_permission_drift.py:324-365 | a target is collected out of what earlier targets left, and the totals never pass the limits |
| `Pagination.CollectTargets` | src/m365_secure_mcp/entra_permission_drift.py:520-531 | all targets are collected exactly when every chain ends and each domain's totals stay within its limits |
| `Pagination.CollectDomain` | src/m365_secure_mcp/entra_posture.py:353-404 | the posture collector returns the sorted concatenation of a complete chain |
| `Pagination.SortKeyExactly` | src/m365_secure_mcp/entra_posture.py:292-302 | two records have equal keys exactly if their five fields agree, absent and empty counting as the same, and the first field that differs decides the order |
| `Ordering.SortIsStable` | src/m365_secure_mcp/entra_posture.py:403 | records with equal keys stay in the order in which they came |
| `Pagination.OrderAndPagesDoNotMatter` | src/m365_secure_mcp/entra_posture.py:292-302 | with distinct sort keys the result forgets server order and page splits |
| `Pagination.ServerOrderIsForgottenExactly` | src/m365_secure_mcp/entra_posture.py:292-302 | the sorted collection is the same for every order the server sends exactly when different records have different sort keys |
| `GrantDrift.Classify` | src/m365_secure_mcp/entra_permission_drift.py:620-775 | the counters are the sizes of the missing, unexpected and excepted sets, and the findings are exactly those; what the sets and findings are is `SetsAreExact` and `FindingTells` |
| `GrantDrift.SetsAreExact` | src/m365_secure_mcp/entra_permission_drift.py:539-765 | member by member: User.Read and the scopes of the contracts are needed, a surplus grant is one that is not a needed Graph scope under an allowed consent type, and an excepted one has an unexpired exception for exactly it |
| `GrantDrift.FindingTells` | src/m365_secure_mcp/entra_permission_drift.py:673-765 | which control a surplus grant violates, its resource and permission, and whether it is excepted |
| `GrantDrift.NotAlignedExactly` | src/m365_secure_mcp/entra_permission_drift.py:770-775 | NOT_ALIGNED exactly if a needed scope is not granted or an unexplained grant has no unexpired exception |
| `GrantDrift.AlignedExactly` | src/m365_secure_mcp/entra_permission_drift.py:770-775 | ALIGNED exactly when the expected scopes are granted under allowed consent types and nothing else is granted |
| `GrantDrift.ExceptionApprovedExactly` | src/m365_secure_mcp/entra_permission_drift.py:770-775 | EXCEPTION_APPROVED exactly when nothing is missing and every surplus grant has its own exception |
| `GrantDrift.MoreExceptionsNeverWorsen` | src/m365_secure_mcp/entra_permission_drift.py:552-568 | adding exceptions keeps the total and never worsens the alignment |
| `GrantDrift.ExpiryNeverImproves` | src/m365_secure_mcp/entra_permission_drift.py:552-568 | the passing of time alone never improves it |
| `CredentialPosture.ValidateException` | src/m365_secure_mcp/governance.py:457-495 | a selector is required on credential controls and forbidden on application controls |
| `CredentialPosture.ActiveException` | src/m365_secure_mcp/entra_app_credentials.py:379-404 | the loop finds an exception exactly when one covers the finding |
| `CredentialPosture.CredentialExceptionsAreExact` | src/m365_secure_mcp/entra_app_credentials.py:379-404 | under a validated baseline a credential finding is excepted only by exactly its kind and key |
| `CredentialPosture.ApplicationExceptionsAreExact` | src/m365_secure_mcp/entra_app_credentials.py:379-404 | and an application-level finding only by an exception without a selector |
| `CredentialPosture.ClassNeverMovesBack` | src/m365_secure_mcp/entra_app_credentials.py:476-482 | a credential only moves from dormant over active and expiring to expired, and is never active and expired |
| `CredentialPosture.CountsAreConsistent` | src/m365_secure_mcp/entra_app_credentials.py:625-655 | expiring ones are among the active ones, and active plus expired never exceed the total |
| `CredentialPosture.CountsExactly` | src/m365_secure_mcp/entra_app_credentials.py:476-482 | the counts are the numbers of credentials in use, in use and ending within the warning, and ended |
| `CredentialPosture.ExpiredNeverFalls` | src/m365_secure_mcp/entra_app_credentials.py:625-655 | the expired count never falls as time passes |
| `CredentialPosture.Classify` | src/m365_secure_mcp/entra_app_credentials.py:583-708 | the counts, the findings in order, and ALIGNED exactly for healthy applications |
| `CredentialPosture.ViolationsExactly` | src/m365_secure_mcp/entra_app_credentials.py:483-580 | which control a credential violates, in terms of its start, its end and the target |
| `CredentialPosture.EveryBreachIsListed` | src/m365_secure_mcp/entra_app_credentials.py:625-655 | one finding for each broken control of each credential, in order, excepted exactly by an exception that covers it |
| `CredentialPosture.FindingsExactly` | src/m365_secure_mcp/entra_app_credentials.py:583-700 | the whole report in order: owners, passwords, keys, limits |
| `PathTemplates.SplitRender` | src/m365_secure_mcp/contract_manifest.py:215-216 | splitting a path at its slashes gives back the segments it was made of |
| `PathTemplates.ValidTemplateExactly` | src/m365_secure_mcp/contract_manifest.py:198-224 | the validator accepts exactly the texts made of one or more segments behind slashes, each a literal without forbidden characters or an allowed name in braces, none naming another API version in any case |
| `PathTemplates.SafeParameterExactly` | src/m365_secure_mcp/contract_manifest.py:190-192 | which parameter values pass: 1 to 128 letters, digits, dots, underscores, tildes and dashes, the first a letter or digit |
| `PathTemplates.FillKeepsStructure` | src/m365_secure_mcp/contract_manifest.py:510-516 | filling keeps the segment count and every literal, and splitting recovers each parameter in its place |
| `PathTemplates.FillIsInjective` | src/m365_secure_mcp/contract_manifest.py:510-530 | two fillings are equal exactly when they agree on every placeholder |
| `PathTemplates.FillKeepsTrailingRef` | src/m365_secure_mcp/contract_manifest.py:545-550 | a trailing `/$ref` is kept and never created |
| `PathTemplates.FilledPathIsNormal` | src/m365_secure_mcp/contract_manifest.py:190-224 | a filled template is a fixed point of dot-segment removal, section 5.2.4 of RFC 3986 |
| `PathTemplates.ValidateEffect` | src/m365_secure_mcp/contract_manifest.py:500-565 | which combinations of effect, method, endpoint, input schema and tier pass; DELETE is reserved for removing references, and no read passes |
| `PathTemplates.AcceptedContractsStayOnTheirPath` | src/m365_secure_mcp/contract_manifest.py:510-550 | whatever the input schema lets through, the request path is normal, and a DELETE ends in `/$ref` |
| `PolicyNormalization.NormalizedIsTidy` | src/m365_secure_mcp/entra_posture.py:149-190 | a normal form is within the depth, width and key bounds, has ordered keys and no `@odata.` annotations |
| `PolicyNormalization.NormalizesExactly` | src/m365_secure_mcp/entra_posture.py:149-190 | a document is normalized exactly when it is within the depth, list, key and text bounds, annotated entries aside, and holds no foreign value |
| `PolicyNormalization.NormalFormKeepsAll` | src/m365_secure_mcp/entra_posture.py:149-190 | nothing is lost but annotations and key order: every other entry, item and value is kept, at every level |
| `PolicyNormalization.NormalizationIsIdempotent` | src/m365_secure_mcp/entra_posture.py:149-190 | normalizing twice is normalizing once, and the fixed points are exactly the tidy documents |
| `PolicyNormalization.KeyOrderDoesNotMatter` | src/m365_secure_mcp/entra_posture.py:167-189 | documents that differ only in key order, at any level, have the same normal form or none |
| `Readiness.Correlate` | src/m365_secure_mcp/entra_workload_readiness.py:295-460 | the join exists exactly without duplicates and has one row per identity of either side, in order |
| `Readiness.DuplicatesShrinkTheSet` | src/m365_secure_mcp/entra_workload_readiness.py:302-317 | comparing sizes finds exactly the duplicated identities |
| `Readiness.EveryTargetHasItsRow` | src/m365_secure_mcp/entra_workload_readiness.py:324-335 | every target of either side appears in its row with its own alignment |
| `Readiness.RowsAreExact` | src/m365_secure_mcp/entra_workload_readiness.py:324-445 | a row says of each side what its target says, or that there is none, and adds up the approved exceptions |
| `Readiness.AlignedExactly` | src/m365_secure_mcp/entra_workload_readiness.py:125-138 | a row is ALIGNED exactly when both sides exist and are aligned |
| `Readiness.NothingIsPromoted` | src/m365_secure_mcp/entra_workload_readiness.py:125-138 | a row is never better than either side, and one missing side leaves it unevaluated |
| `Readiness.FindingsAreConserved` | src/m365_secure_mcp/entra_workload_readiness.py:319-460 | the findings, worst first, are all inputs plus exactly one per unmatched or doubly non-aligned identity |
| `Readiness.ExtrasAreExact` | src/m365_secure_mcp/entra_workload_readiness.py:337-380 | the extra findings are exactly one kind for an identity on one side only and another for one that is not aligned on both |
| `Readiness.FitsExactly` | src/m365_secure_mcp/entra_workload_readiness.py:50-115 | the join stays within the bounds of a report exactly if the identities of both baselines, the findings and the approved exceptions do |
| `Readiness.UnrelatedBaselinesFitExactly` | src/m365_secure_mcp/entra_workload_readiness.py:111-115 | two baselines of unrelated workloads fit exactly if there are at most 100 of them altogether |
| `Readiness.UnrelatedBaselinesDoNotFit` | src/m365_secure_mcp/entra_workload_readiness.py:111-115 | two admissible baselines of 60 workloads whose join no report can hold |
| `Readiness.HaltedReport` | src/m365_secure_mcp/entra_workload_readiness.py:202-293 | COMPLETED exactly before the failed node, its reason exactly at it and not run exactly after it, with one finding for each node without evidence |
| `Readiness.Collect` | src/m365_secure_mcp/entra_workload_readiness.py:462-573 | every report lists each node once in order, and as COMPLETED only nodes that passed; it is complete, with every status COMPLETED, exactly when all nodes pass, the policy is unchanged, no identity is duplicated and the join fits; it is halted, with statuses as in `HaltedReport`, exactly when a node fails after others that passed or the policy has changed; otherwise there is none |

## Left out

- PlaybookTheorems.DispatchDiscipline: not for runs in which a first checkpoint is made from a replaced record; `PlaybookOverlap.DisciplineExactly` shows that it fails there.
- GraphClient.Client.RequestJson: back-off delays are not modelled, and neither is cancellation of the coroutine between a send and its answer, which leaves the counters ahead of any classification; a call cut off there is a crash in `OperationalProfile`.
- OperationalProfile.EntraOperations.Execute: record texts, fingerprints and the evidence references are left out; of a call that is not cleared the contract says only that it sent nothing and burnt at most one approval, not which checks it recorded.
- Authorization.ValidatePolicy: the resolution of a control library against the control manifest, its last step for policies that have one, is not part of it.
- PathTemplates.ValidateEffect: the closed schema, authorization, lifecycle, module and permission checks of the same validator are left out; they are independent tables.
- Pagination.CollectCollection: a page request that fails ends the collection with its own error; here it is a page that is not a list. The duplicate check on collected owners is left out.
- GrantDrift.Classify: the findings are stated as a set with its size; the order in which a sorted set is walked is not.
- Readiness.HaltedReport: the texts, references and responsible parties of its findings are left out, and so are the counts in node results, of which only the bounds are modelled.
- Readiness.Correlate: of a row the counters that are copied from one side are left out.
- CredentialPosture.Classify: severities, texts and references of its findings are left out, as they are in `GrantDrift`.
- GraphClient.Client.UploadDriveItem: the principal check and the size check of the file before the first send are left out; address and content of the file are one opaque value.
- PolicyNormalization.NormalizedIsTidy: keys that are not strings cannot come out of a JSON decoder and are left out; numbers are opaque.
- PathTemplates.FillKeepsStructure: percent-encoding of other identifiers (`path_segment`) is left out; it leaves the unreserved characters of a safe parameter alone.
- Cryptography, JSON encoding, SQLite, file modes, HTTP and token acquisition: replaced by the contracts named above.
- The resource fences of policy versions 2 and 3.
- `remove_exact_group_member_reference` and the raw and download reads of the Graph client: single sends or reads with their own classification.
- Executors, provider lifecycles and `execute_effectful`: an executor is any outcome or exception.
- Local allowlists, rate limits, discovery, diagnostics, formatting, profile debt and the generated manifests: independent branches and tables.
- Message texts, UUID generation and regular-expression engines; the character classes that matter for paths and keys are written out.
