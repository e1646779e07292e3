# A verified model of the NodeDeploy controller

The controller brings hosts into and out of a Kubernetes cluster. A `NodeDeploy` object says what is wanted
(`spec.nodeStatus`, active or inactive) and what is the case (`status.nodeStatus`). A call of `Reconcile` reads the
object, claims it by writing `launching` or `deprecating` together with a deadline 30 minutes ahead, runs a long node
operation inside a retry loop, and publishes the outcome. Every one of these writes is conditional on the version that
was read, and an expired claim is taken back by whichever call sees it. Leader election is off by default
(`main.go:58`) and the Helm deployment does not turn it on (`node-deploy/templates/deployment.yaml:35-36`), so several
controllers working on one object are a real configuration, and the model has any number of them.

## How the project is built

- `Protocol.dfy` is the reconcile protocol as a transition system: one stored object with its whole write history, any
  number of calls on private and possibly stale copies, a clock, spec edits, crashes, conflicts, and updates that are
  answered with an error and then take effect at once, much later, or never. `Reachable` is the set of states of all
  schedules.
- `Invariant.dfy`, `Fencing.dfy`, `Origins.dfy` and `Truth.dfy` hold the inductive invariants that every step keeps.
  With `Runs.dfy`, `Rounds.dfy`, `Convergence.dfy`, `Overlap.dfy` and `Replay.dfy` they hold the theorems: deadline-fenced exclusion,
  no late results, no premature fallback, the exact life cycle of the status, when exactly a stored status can be
  trusted, the retry loop, the order of a deprecation, and convergence under faults and stale reads, for calls one after
  the other and for overlapping ones. `Scenarios.dfy` constructs runs: every edge of the
  life cycle happens, the bounds on convergence are met, and a wrong or untrue status does get stored.
- `Reconciler.dfy` is the imperative code: `Reconcile`, `prepare`, the retried closure, `retry.Do` and `finalize` on an
  object they edit in place, against a `Cluster` in which anything may happen between two interactions. `Driver.dfy`
  says what the protocol makes of one call under given turns of the world. `Reconcile` is proved to end in exactly that
  state, so the theorems about runs are theorems about this code. Conversely every call of the protocol that has ended,
  by returning, crashing or panicking, is proved to be one that can be driven, so that no such call does anything that
  the code cannot do.
- `Operations.dfy` (`launchNode`, `deprecateNode`), `Pipeline.dfy` (`LaunchByCmd`, `Progress`), `Watch.dfy`
  (`watchNode`, `nodeIsReady`) and `NodePatch.dfy` (the read-merge-write loop on the cluster Node) are the operations
  that a claim protects. Methods mirror the source's loops and are proved against functions, and the lemmas are about
  those functions.
- `Token.dfy` and `Package.dfy` are the bootstrap token, the Secret that stores it, and the installation package paths.
  `Text.dfy` has the string operations these need, `Api.dfy` the values of the resource.
- What the specification functions say is also stated apart from their definitions, in the terms of the source: which
  branch a call takes by what it has read (`Decisions.dfy`), what answers and results lead to, which pair each
  operation returns, the steps by name and the paths, keys and numbers written out.

## Where the code differs from its comments or its apparent intent

The model follows the code in each case.

- `maxRetry` is said to disable retrying when it is not positive (`api/v1/nodedeploy_types.go:66`). The code converts it
  to an unsigned attempt count (`controllers/nodedeploy_controller.go:182`, `218`), for which 0 means without limit and
  a negative value an astronomically large limit. Only 1 disables retrying: `Runs.OnlyOneDisablesRetrying`.
- After a failed preflight the stored status is tested where the spec was probably meant
  (`controllers/nodedeploy_controller.go:150-154`). The failure of what the spec asks for is recorded exactly when that
  is a launch and the stored status is not inactive: `Runs.PreflightLooksAtStatusFirst`. An inactive object that should
  become active ends in `deprecateFail` (`Scenarios.LaunchRecordedAsDeprecation`), and for an active object that should
  become inactive no failure is recorded (`Scenarios.DeprecationNotRecorded`).
- `finalize` writes the unknown status when no attempt got past `prepare`
  (`controllers/nodedeploy_controller.go:162-191`): `Runs.UnknownOnlyWithoutOperation`.
- A fallback restores a status that may be untrue and leaves the old deadline behind
  (`controllers/nodedeploy_controller.go:104-112`). `Scenarios.FallbackCanLie` is a run in which the stored status is
  active after the Node has been deleted and without any launch. What is stored can be trusted exactly when the history
  has no fallback: `Replay.TruthfulExactlyWithoutFallback`. `Runs.ActiveOrInactiveComesFrom` says what remains true of
  all runs.
- `nodeIsReady` only looks whether a condition of type Ready is listed (`controllers/utils.go:42-50`), so a Node that
  reports itself not ready ends the wait with success: `Watch.UnreadyNodeEndsTheWait`. The answer is right exactly when
  no Ready condition is listed or one with status True is: `Watch.ReadyIsRight`, and `Watch.WaitIsRight` for the wait.
- The annotation loop writes to a map that may be nil, which panics (`controllers/nodedeploy_controller.go:345-347`).
  `NodePatch.PanicsExactlyOnNil` says exactly when, and `Operations.NilAnnotationsPanic` constructs such a launch.
- `Join` of a KubeEdge node only logs that the join information could not be read, and then takes the first element of
  an empty list of cloud hosts, which panics outside the reach of any recover (`pkg/nodemanager/join.go:287-293`,
  `pkg/nodemanager/token.go:75-90`): `Operations.NoCloudHostPanics`. With the one before these are exactly the two ways
  in which a launch brings the process down: `Operations.LaunchPanicsExactly`.
- A failed drain returns no error, so it ends the retry loop with `deprecateFail`
  (`controllers/nodedeploy_controller.go:443-449`): `Runs.DeprecationOrderInRuns`.
- `Deprecate` goes on after a failed SSH connection, and the missing client is then used without an error coming back
  (`pkg/nodemanager/manager.go:41-44`, `utils/ssh/ssh.go:39-48`). So a deprecation can succeed and delete the Node
  without having reached the host (`Operations.UnreachableHostIsDeprecated`). It has run the disjoin there exactly when
  there was a connection (`Operations.DisJoinedExactlyWhenConnected`), and `Operations.ConnectionMattersExactly` says
  when a connection makes a difference to the result.
- The comments on the package paths show a `v` before the version, and for KubeEdge a patch level
  (`pkg/nodemanager/join.go:110`, `201`). The code writes neither.

## Assumptions

- One clock is shared by everybody, in whole seconds. Only the controller writes the status subresource.
- `spec.nodeStatus` is active or inactive, as the CRD demands, and the node type is work or kubeedge.
- The API server's update is atomic and succeeds only on the current version. Every successful update makes a new
  version.

## Model

| member | source | states |
|---|---|---|
| Invariant.StepKeepsInv | controllers/nodedeploy_controller.go:78-232 | The invariant that ties every call, pending update and version to each other survives each step of any participant |
| Invariant.RunKeepsInv | controllers/nodedeploy_controller.go:78-232 | Hence it holds in every state of every schedule, whatever interleaves, fails, arrives late or crashes |
| Fencing.PrepareRespectsDeadlines | controllers/nodedeploy_controller.go:100-115 | Exclusion: when a call succeeds in prepare while another is still inside the operation of its own last successful prepare, that other one's deadline has passed |
| Fencing.AtMostOneWithinDeadline | controllers/nodedeploy_controller.go:299-312 | Of any two calls inside their operations at the same time, at least one is past its deadline |
| Fencing.OnlyFallbackBreaksAClaim | controllers/nodedeploy_controller.go:102-115 | While a claim is held, the only update of any other call that can be accepted is a fallback after the claim's deadline |
| Fencing.StepKeepsFence | controllers/nodedeploy_controller.go:100-115 | A call inside its operation owns the stored claim, or is past its deadline and was fallen back on: kept by every step |
| Fencing.OnlyPrepareEnters | controllers/nodedeploy_controller.go:166-170 | An operation is entered only through an accepted prepare on the current version, which makes its call the holder of the claim |
| Fencing.ClaimBehind | controllers/nodedeploy_controller.go:299-312 | Every in-progress version descends, through spec edits alone, from a prepare that wrote the same status and deadline |
| Fencing.NoPrematureFallback | controllers/nodedeploy_controller.go:102-115 | Every fallback cancels one claim strictly after the deadline its latest prepare set, which is 1800 seconds after a moment between the version prepared on and the prepare's own commit; launching falls back to inactive and deprecating to active, and the old deadline stays behind |
| Fencing.FinalizeFollowsOwnClaim | controllers/nodedeploy_controller.go:421-430 | An effective finalize publishes an outcome directly after its own call's last successful prepare, or publishes unknown as the only write of a call that never prepared; afterwards the call never writes |
| Origins.FinalizeFollowsReadOrClaim | controllers/nodedeploy_controller.go:162-191 | No late result, in full: and in the second case the finalize directly follows the version that its call read |
| Origins.WritesFollowReadOrClaim | controllers/nodedeploy_controller.go:81-113 | Every write of a call, of any kind, directly follows the version that the call read or, in the retry loop, a claim of its own |
| Origins.WritesAreOneBlock | controllers/nodedeploy_controller.go:166-191 | The writes of a call that has claimed are one block of the history, all but the last being claims |
| Fencing.StaleCallIsSilent | controllers/nodedeploy_controller.go:161-228 | Once a call's copy is stale, in every continuation none of its writes takes effect and it starts no further operation |
| Truth.StepKeepsTruth | controllers/nodedeploy_controller.go:161-228 | What is stored and what is about to be written agrees with the operations completed so far, kept by every step |
| Truth.RunKeepsAll | controllers/nodedeploy_controller.go:78-232 | All invariants together hold in every state of every run |
| Runs.ClosedLifeCycle | controllers/nodedeploy_controller.go:86-228 | Every change of the stored status in any run is one of a fixed set of edges |
| Scenarios.EveryEdgeHappens | controllers/nodedeploy_controller.go:86-228 | For each of those edges there is a run that takes it |
| Scenarios.LifeCycleIsExact | controllers/nodedeploy_controller.go:86-228 | A status can change into another one in some run if and only if the life cycle has that edge |
| Runs.UnknownOnlyWithoutOperation | controllers/nodedeploy_controller.go:162-191 | The status goes back to unknown only by the finalize of a call that completed no operation and wrote nothing before |
| Decisions.DecideMeans | controllers/nodedeploy_controller.go:86-198 | The branch a call takes, both ways: by the stored status, the wanted one, the deadline and the three verdicts of preflight it initializes, falls back, writes a failed preflight, enters the retry loop, or returns |
| Decisions.DecideWrites | controllers/nodedeploy_controller.go:86-157 | The status each of these branches writes, for every status read; nothing else in the copy changes |
| Decisions.ClaimMeans | controllers/nodedeploy_controller.go:299-306 | A claim says launching or deprecating as the spec wants, with a deadline 1800 seconds from now |
| Decisions.AnswersMean | controllers/nodedeploy_controller.go:166-191 | An accepted claim starts the operation under the new version, any other accepted update ends the call well and a refused one with an error; a refused claim is retried if and only if maxRetry allows it, and else leads to the finalize with the captured status and no deadline |
| Decisions.EndsMean | controllers/nodedeploy_controller.go:170-191 | The captured status says how the operation went, and there is another attempt if and only if it returned an error and maxRetry allows it |
| Runs.OnlyValidSpecsAreOperated | controllers/nodedeploy_controller.go:144-170 | Every operation of any run is the one its claim's spec asks for, and labels, address and version of that spec were accepted |
| Runs.OnlyValidSpecsAreClaimed | controllers/nodedeploy_controller.go:144-168 | So it is for every claim |
| Runs.OnlyInvalidSpecsAreRefused | controllers/nodedeploy_controller.go:259-298 | A failed preflight is written only for a spec of which labels, address or version was refused |
| Runs.PreflightLooksAtStatusFirst | controllers/nodedeploy_controller.go:149-160 | A failed preflight records the failure of what the spec asks for if and only if that is a launch and the stored status was not inactive; otherwise it records a failed deprecation for a launch, or leaves the status of a deprecation as it was |
| Scenarios.LaunchRecordedAsDeprecation | controllers/nodedeploy_controller.go:150-151 | A run in which an active spec over a stored inactive fails preflight and is stored as a failed deprecation |
| Scenarios.DeprecationNotRecorded | controllers/nodedeploy_controller.go:152-156 | A run in which an inactive spec over a stored active fails preflight and active is stored again |
| Runs.TruthfulStatus | controllers/nodedeploy_controller.go:161-228 | In every run without a fallback, a stored active or inactive means that the last operation completed by anyone is a launch or a deprecation that returned true and achieved all its steps |
| Runs.ActiveOrInactiveComesFrom | controllers/nodedeploy_controller.go:100-228 | With fallbacks: a stored active or inactive was set by a finalize if and only if its writer completed an operation, whose last one then succeeded under the claim directly before, or else by a fallback |
| Replay.TruthfulExactlyWithoutFallback | controllers/nodedeploy_controller.go:100-228 | A stored active or inactive agrees with the last completed operation in every run with the same history if and only if that history has no fallback |
| Replay.FallbackLeavesDoubt | controllers/nodedeploy_controller.go:102-115 | For every run with a fallback there is a run with the very same history in which the last operation completed is a failure |
| Replay.LeaveOut | controllers/nodedeploy_controller.go:78-232 | Over a stretch of a run in which a call writes nothing, all its steps can be left out without changing history, clock or any other call |
| Scenarios.FallbackCanLie | controllers/nodedeploy_controller.go:102-113 | A run ends with a stored active although the last completed operation deleted the Node and no launch ever ran |
| Runs.SuccessAchieves | controllers/nodedeploy_controller.go:313-357 | An operation recorded as a success passed all its steps, in order, with the effects a launch or a deprecation is for |
| Runs.CapturedIsLastRan | controllers/nodedeploy_controller.go:162-184 | The captured status is the outcome of the last attempt that got past prepare, and unknown if there is none |
| Runs.RetryResult | controllers/nodedeploy_controller.go:162-191 | At the finalize, with n attempts made and m = maxRetry: all but the last failed; for m >= 1, n <= m, and n = m if the last one failed; for m = 0 the last one did not fail; for m < 0 the same as for m >= 1 with 2^64 + m; and the status written is a success if and only if the final attempt returned true |
| Api.AttemptsAllowed | controllers/nodedeploy_controller.go:182 | After n failed attempts there is another one if and only if m = 0 or n < m, and for negative m if and only if n < 2^64 + m |
| Runs.OnlyOneDisablesRetrying | api/v1/nodedeploy_types.go:64-67 | One failed attempt is the last one if and only if maxRetry is 1; 0 never stops, negative values allow at least 2^63 attempts |
| Runs.DeprecationOrderInRuns | controllers/nodedeploy_controller.go:199-227 | Over all retries of a call: each delete directly follows a clean disjoin and, with eviction, a clean drain; a failed drain or a successful delete is the last event and fixes the status to publish |
| Rounds.RoundEffect | controllers/nodedeploy_controller.go:78-232 | What one call, whatever it read and whatever faults it has, can leave behind while updates of earlier calls may land: the single landing update that overtakes it; or nothing, if it read a stale copy; or an effect of its own, and exactly one if it is due and without faults |
| Convergence.RankOfEffect | controllers/nodedeploy_controller.go:85-228 | A call without faults lowers the rank of an unsettled status, a faulty one raises it by at most one and only if the spec is valid |
| Convergence.RankOfLanding | controllers/nodedeploy_controller.go:299-312 | How far a landing update of an earlier call can set the status back, and that it leaves a settled status alone |
| Convergence.WeightOfRound | controllers/nodedeploy_controller.go:85-228 | From an unsettled status a due call lowers the weight, that is rank plus the cost of an update still on its way, unless it read a stale copy, when it does not raise it, or is faulty, when it raises it by at most two for a valid spec |
| Convergence.SettledMeansStable | controllers/nodedeploy_controller.go:95-122 | Rank 0 is exactly stability: no call and no landing update changes status or deadline there, and anywhere else every due call without faults that reads the current version, if nobody else's update lands in it, changes the status; one that reads a stale copy writes nothing |
| Convergence.RanksAddUp | controllers/nodedeploy_controller.go:85-228 | Over any sequence of calls, with stale reads and late landings, the due ones are paid for by the weight lost, the faults and the stale reads, unless the status is settled |
| Convergence.Converges | controllers/nodedeploy_controller.go:85-228 | For a fixed spec the status is settled after at most 3 due calls that read the current version without faults (2 if the spec is valid and no update is on its way), 3 more for each faulty one if the spec is valid, 1 more if not, and 1 more for each due one that reads a stale copy; a fault is a crash, a panic or an update answered with an error, which may land at any later time |
| Overlap.ConvergesOverlapping | controllers/nodedeploy_controller.go:78-232 | With any number of calls at the same time, stale reads, crashes, lost updates and any interleaving, but a fixed spec: while the status stays unsettled, the due calls that read the current version and return without faults are at most k for every version, with k the most calls running at once; and there are at most as many versions as the rank, two for each call that enters its retry loop, and one for each renewed claim |
| Overlap.SmoothCallsSeeProgress | controllers/nodedeploy_controller.go:85-228 | Each such call is running when some version is committed, by itself or by another |
| Overlap.PassivePaid | controllers/nodedeploy_controller.go:85-228 | Until the status is settled nothing is published, and every write outside the retry loops is paid for by the rank or by a call that enters its loop |
| Overlap.EnterOnce | controllers/nodedeploy_controller.go:161-228 | No call enters its retry loop twice |
| Scenarios.BoundIsTight | controllers/nodedeploy_controller.go:85-228 | For a valid spec, every number of faults and of stale reads, and with or without an update on its way at the start, a sequence of calls one short of the bound is still unsettled |
| Scenarios.BoundIsTightForInvalid | controllers/nodedeploy_controller.go:85-228 | The same for an invalid spec |
| Convergence.CrashResumption | controllers/nodedeploy_controller.go:102-113 | After an abandoned claim has expired, the next call that reads it without faults, if nobody else's update lands in it, restores a status from which a following one that reads that starts the same kind of operation if and only if the spec still asks for it and passes preflight |
| Convergence.FallbackResumes | controllers/utils.go:51-60 | The fallback status leads back into the retry loop for the same kind of operation exactly under that condition |
| Reconciler.Reconcile | controllers/nodedeploy_controller.go:78-232 | Refinement: for every behaviour of the world the call ends in exactly the state into which the protocol drives it, with the reported result, and has taken protocol steps alone |
| Driver.EndsAreDriven | controllers/nodedeploy_controller.go:85-232 | The converse: whatever a call of the protocol does until it returns or dies, in whatever interleaving, it does when driven by suitable turns |
| Driver.EndedCallsAreExecutions | controllers/nodedeploy_controller.go:78-232 | The same from the read on: each call of the protocol that has ended is an execution of Reconcile |
| Reconciler.Prepare | controllers/nodedeploy_controller.go:299-312 | A claim with a fresh deadline on the local copy; accepted it enters the operation, refused it is a failed attempt and the copy keeps the values sent |
| Reconciler.TryOnce | controllers/nodedeploy_controller.go:166-180 | One run of the closure adds one attempt to the log, failed if and only if an error is returned, and the captured status follows |
| Reconciler.RetryDo | controllers/nodedeploy_controller.go:161-188 | The loop stops at the first attempt without error or when as many have been made as maxRetry says, with the captured status of its attempts, about to finalize |
| Reconciler.Finalize | controllers/nodedeploy_controller.go:421-430 | The captured status is sent without a deadline, and the call has returned with the answer |
| Reconciler.WriteStatus | controllers/nodedeploy_controller.go:86-113 | The three status writes outside the loop, each of which ends the call |
| Reconciler.Cluster.StatusUpdate | controllers/nodedeploy_controller.go:307-309 | The version of the copy changes only on success; an error leaves version and edited fields as sent |
| Reconciler.Cluster.RunOperation | controllers/nodedeploy_controller.go:170-179 | The operation that the spec names runs in its imperative form and is one step of the protocol; a panic ends the process |
| Reconciler.ExecutionsAreRuns | controllers/nodedeploy_controller.go:78-232 | Every execution of the imperative code is in a state of some run of the protocol |
| Operations.LaunchNode | controllers/nodedeploy_controller.go:313-357 | The result, the trace of the pipeline and the committed Node versions are those the specification gives, for every behaviour of host, watch and server |
| Operations.LaunchOutcomes | controllers/nodedeploy_controller.go:313-357 | Which pair a launch returns, each both ways: true; false without an error, and so not retried, exactly when all went well but no Node looked at lists a Ready condition; an error exactly when there is no connection, a step failed, the wait failed or the update failed |
| Operations.LaunchSuccessMeans | controllers/nodedeploy_controller.go:313-357 | True without error means that all ten steps passed, the Node was seen ready, and the stored Node is the patch merged into the version before it |
| Operations.Host.DeprecateNode | controllers/nodedeploy_controller.go:433-465 | Result and events of one deprecation, for every lookup, drain, disjoin and delete result |
| Operations.DeprecateOutcomes | controllers/nodedeploy_controller.go:433-465 | Which pair a deprecation returns, each both ways: false without an error exactly for a failed drain, and an error exactly for a missing Node, a failed disjoin or a failed delete |
| Operations.DeprecateEvents | controllers/nodedeploy_controller.go:433-465 | Its events against its result: nothing happens without a Node, a drain exactly if asked for, a failed drain or a successful delete exactly for the results that are not retried |
| Operations.Host.Deprecate | pkg/nodemanager/manager.go:31-57 | An error comes back if and only if there was a connection and the disjoin failed over it |
| Operations.ConnectionMattersExactly | controllers/nodedeploy_controller.go:443-464 | The result is the same with and without a connection if and only if the disjoin is not reached, or would succeed, or the Node cannot be deleted |
| Operations.DisJoinedExactlyWhenConnected | pkg/nodemanager/manager.go:41-51 | A deprecation that returned true has run the disjoin on the host if and only if there was a connection |
| Operations.UnreachableHostIsDeprecated | pkg/nodemanager/manager.go:41-47 | For every spec there is a deprecation that returned true and deleted the Node without a connection |
| Operations.DeprecateSuccessMeans | controllers/nodedeploy_controller.go:433-465 | True without error leaves exactly drain if asked for, disjoin and delete, all clean and in this order |
| Operations.DeprecationOrder | controllers/nodedeploy_controller.go:201-220 | On the flat trace of all attempts, retried only on errors, the order holds at every position |
| Operations.FailedAttemptsLeaveNoEnd | controllers/nodedeploy_controller.go:443-464 | Attempts that return an error leave neither a successful delete nor a failed drain |
| Pipeline.LaunchPipeline | pkg/nodemanager/manager.go:60-148 | For any step outcomes, error or panic, the steps run are a prefix of the ten in order, each announced as k/10 directly before it runs, all but the last passed; the trace closes with the success message if and only if all ten passed, and ends with an announcement if and only if the last one panicked |
| Pipeline.StepsInOrder | pkg/nodemanager/manager.go:74-140 | The trace by the names of the steps: the ten are listed, the started ones are their first n, each announced as k/10 directly after the one before has run with success |
| Pipeline.FailedStepIsAnError | pkg/nodemanager/manager.go:76-143 | A step that ran and failed is in the trace if and only if an error comes back |
| Pipeline.PhasesShown | pkg/nodemanager/manager.go:74-144 | The phases a launch shows, in the order of the steps, and those of the failures named otherwise |
| Pipeline.PhasesOfFailures | pkg/nodemanager/manager.go:74-144 | A failure is reported under the phase its step was announced with, except for exactly four steps |
| Pipeline.RunIsPrefix | pkg/nodemanager/manager.go:74-146 | The same from any step on, position by position of the trace |
| Pipeline.Started | pkg/nodemanager/manager.go:74-143 | The steps started end with the first one that does not pass |
| Pipeline.NodeManager.LaunchByCmd | pkg/nodemanager/manager.go:60-148 | An error without a connection, and otherwise what the last step started came to, nil, error or panic, with exactly the trace of the specification |
| Pipeline.NodeManager.RunStep | pkg/nodemanager/manager.go:74-80 | One step of the ten: announced with the advanced progress, run, and on failure reported with the same progress and an early exit; after a panic nothing more |
| Pipeline.NodeManager.LogMessage | pkg/nodemanager/manager.go:149-155 | A message with its progress joins the trace |
| Pipeline.Progress.Add | pkg/nodemanager/progress.go:17-24 | Counting stops at the total, and the new position is what is shown |
| Pipeline.ShownReadsBack | pkg/nodemanager/progress.go:30-32 | Both numbers can be read back from the progress text |
| Watch.WatchNode | controllers/nodedeploy_controller.go:358-420 | The verdict of the specification for every read and event stream; without an initial Node it is true if and only if a decisive event arrives before the end |
| Watch.WaitOutcome | controllers/nodedeploy_controller.go:358-420 | An error exactly when the first read fails or a watch is needed and cannot be made, and success exactly when the first Node or that of an added or modified event of that name has the readiness wanted |
| Watch.ScanFindsAny | controllers/nodedeploy_controller.go:382-418 | The wait succeeds if and only if some Added or Modified event for the Node with the wanted readiness is in the stream |
| Watch.NoiseIsIrrelevant | controllers/nodedeploy_controller.go:394-407 | Closed-channel receives, wrong types, other Nodes and other event types never change the answer |
| Watch.NodeIsReady | controllers/utils.go:42-50 | The search loop finds a Ready condition if and only if one is listed |
| Watch.ReadyIgnoresStatus | controllers/utils.go:43-47 | What a condition reports never changes the answer |
| Watch.ReadyIsRight | controllers/utils.go:42-50 | The answer equals what the Node reports if and only if it lists no Ready condition or one with status True |
| Watch.WaitSucceeds | controllers/nodedeploy_controller.go:358-420 | Waiting for readiness succeeds if and only if some Node that it looks at, at the start or in a change event, lists a Ready condition |
| Watch.WaitIsRight | controllers/nodedeploy_controller.go:358-420 | The wait answers as if it had asked for reported readiness if and only if no Node it looks at lists a Ready condition or some such Node lists one with status True |
| Watch.UnreadyNodeEndsTheWait | controllers/nodedeploy_controller.go:367-369 | A Node that reports itself not ready makes the wait succeed, before and during the watch |
| NodePatch.MergeTaintsIsFilter | controllers/nodedeploy_controller.go:333-344 | The nested loops over the growing list keep the Node's taints as a prefix and append, in order, exactly the spec's taints that are new against the Node and against earlier spec taints |
| NodePatch.MergeTaintsAppends | controllers/nodedeploy_controller.go:333-344 | The Node's taints stay in front, and behind them come, in the order of the spec, exactly those spec taints of which no Node taint and no earlier spec taint has both key and effect |
| NodePatch.MergeTaintsCovers | controllers/nodedeploy_controller.go:333-344 | A key and effect is covered afterwards if and only if the Node or the spec had it |
| NodePatch.MergeTaintsAddsNoSecond | controllers/nodedeploy_controller.go:333-344 | No added taint has the key and effect of any other taint of the result |
| NodePatch.MergeTaintsIdempotent | controllers/nodedeploy_controller.go:333-344 | Merging the same taints again changes nothing |
| NodePatch.MergeMeans | controllers/nodedeploy_controller.go:332-347 | The patch is defined unless annotations meet a nil map, and has exactly one result: key by key the spec's labels and annotations override and all others stay, the new taints are added, and nothing else changes |
| NodePatch.MergeIdempotent | controllers/nodedeploy_controller.go:332-347 | Nor does the whole patch of labels, taints and annotations |
| NodePatch.NoLostUpdate | controllers/nodedeploy_controller.go:326-350 | Whatever interleaves, all versions of other writers survive in order, at most one own version is added, and it is the merge of the version it directly follows |
| NodePatch.UpdateSticks | controllers/nodedeploy_controller.go:326-350 | After success the stored Node is the latest other version, patched key by key as above, and rerunning changes nothing |
| NodePatch.UpdatesExactlyOnWin | controllers/nodedeploy_controller.go:326-350 | Success if and only if one of four tries reads the version still stored when its update arrives, the update is answered, and all tries before were conflicts |
| NodePatch.PanicsExactlyOnNil | controllers/nodedeploy_controller.go:326-350 | The loop panics if and only if the patch has annotations and a try that is reached, after conflicts only, reads a Node with a nil annotation map |
| Operations.LaunchPanicsExactly | controllers/nodedeploy_controller.go:313-350 | A launch brings the process down if and only if a KubeEdge node gets to its last step without a cloud host, or the Node is patched with annotations and read with none in a try that is reached |
| Operations.NoCloudHostPanics | pkg/nodemanager/join.go:286-293 | For every KubeEdge spec there is a launch of the first kind |
| Pipeline.PanicsExactlyWithoutCloudHost | pkg/nodemanager/join.go:286-300 | The ten steps panic if and only if nine have passed and a KubeEdge node has no cloud host |
| Operations.NilAnnotationsPanic | controllers/nodedeploy_controller.go:345-347 | For every spec with annotations there is a launch of the second kind |
| NodePatch.NodeObject.AddTaints | controllers/nodedeploy_controller.go:333-344 | The loops in place compute the merged list |
| NodePatch.NodeObject.AddAnnotations | controllers/nodedeploy_controller.go:345-347 | In any iteration order the spec's annotations override; a nil map panics if and only if there is something to write |
| NodePatch.NodeObject.Patch | controllers/nodedeploy_controller.go:332-347 | The three edits in place are the merge, or panic exactly when it is undefined |
| NodePatch.NodeStore.UpdateNode | controllers/nodedeploy_controller.go:326-350 | The retried closure on one reused copy gives the committed versions and the result of the specification |
| NodePatch.NodeStore.Put | controllers/nodedeploy_controller.go:349 | The update is committed only on the current version, and a stale one is a conflict |
| Token.NewBootstrapToken | pkg/nodemanager/token.go:237-243 | A string is accepted if and only if it is the printed form of a well-formed pair, and yields that pair |
| Token.PrintIsInjective | pkg/nodemanager/token.go:233 | No string is the printed form of two pairs |
| Token.WellFormedMeans | pkg/nodemanager/token.go:237-240 | Six and sixteen characters, all digits or lower-case letters |
| Token.PrintSplits | pkg/nodemanager/token.go:233 | The printed form has its dot at position 6 and gives back both parts |
| Token.EncodeTokenSecretData | pkg/nodemanager/token.go:159-193 | The map filled in place is the Secret's data as specified |
| Token.AddUsages | pkg/nodemanager/token.go:185-187 | The loop adds one entry for each usage, repetitions included |
| Token.UsageKeysAreApart | pkg/nodemanager/token.go:185-187 | No usage name can collide with another key |
| Token.UsagesReadBack | pkg/nodemanager/token.go:185-187 | The usages read back from the Secret are, as a set, those of the token |
| Token.SecretWrittenOut | pkg/nodemanager/token.go:159-193 | Every key of the Secret by name, with its value and when it is there, and no others |
| Token.SecretRoundTrip | pkg/nodemanager/token.go:159-193 | Identifier, secret, description, effective expiry (an explicit one wins) and usages read back from the Secret, and the groups if and only if none contains a comma |
| Token.IssuedSecretReadsBack | pkg/nodemanager/token.go:225-228 | The Secret of an issued token says: this token, one day, signing and authentication, the default node group |
| Token.SecretNames | pkg/nodemanager/token.go:220 | Each identifier has a Secret name of its own |
| Token.SecretStore.CreateOrUpdate | pkg/nodemanager/token.go:196-208 | Create, or update when the Secret has appeared meanwhile; every other Secret is untouched |
| Token.SecretStore.GetToken | pkg/nodemanager/token.go:211-234 | A token is handed out if and only if the generated one is well formed, no Secret of its name is seen and its Secret can be stored; then its Secret and no other was written, otherwise none |
| Package.PackagePathIdentifies | pkg/nodemanager/join.go:109-114 | Two checked hosts get the same source package if and only if node type, normalized architecture, major and minor agree; the destination forgets only the node type |
| Package.ArchitectureOf | pkg/nodemanager/utils.go:17-30 | Which architecture is found, both ways, by the names that stand anywhere in the answer; arm64 wins |
| Package.PathsAre | pkg/nodemanager/join.go:109-114 | The source and destination paths, written out |
| Package.FileNameIsInjective | pkg/nodemanager/join.go:200-205 | Equal file names have equal architecture, major and minor |
| Package.VersionReadsBack | pkg/nodemanager/utils.go:9-16 | Major and minor can be read back from the file name |
| Text.DecimalReadsBack | pkg/nodemanager/utils.go:15 | A printed number consists of digits and reads back as itself |
| Text.JoinRoundTrip | pkg/nodemanager/token.go:190 | Splitting undoes joining if and only if no part contains the separator |
| Text.DecimalDigits | pkg/nodemanager/utils.go:15 | A number is printed digit by digit, the last one last |
| Text.ContainsMeans | pkg/nodemanager/utils.go:19-22 | One string contains another if and only if it is that one with something before and after |

## Left out

- SSH, SFTP and the shell scripts behind each step (`utils/ssh/ssh.go`, most of `pkg/nodemanager/join.go`): a step is
  its result.
- `drainNode`, pod eviction, the Kubernetes clients and the implementation of watches: only their results appear.
- `retry-go`, `RetryOnConflict`, `labels.Merge`, `MatchTaint`: only the small part of their behaviour that is used.
  Delays between retries are time that passes.
- Recording of events, logging, and the JSON of status messages. A message is its kind, the phase text and the progress;
  the free message text and the messages of `Deprecate`, whose progress is always 1/1, are not kept.
- Parsing of semantic versions, IP addresses and label selectors. A version is the three numbers the parser yields (the
  semantic versioning specification 2.0.0, section 2), and the verdicts of `preflight` are part of the spec they judge.
- The text of an expiry (RFC 3339, section 5.6) is any text that can be parsed back to its whole second. The original's
  truncation to seconds is therefore not seen, in expiries or in stored deadlines.
- `GetWorkJoinInfo`, `GetKubeEdgeJoinInfo`, kubeconfig loading and certificate hashing: cluster input and library
  parsing. Of the join information only the list of cloud hosts appears.
- `getNodeInfoFormSecret`: nothing calls it.
- Node types other than work and kubeedge, for which the source has no implementation of its steps.
- Creation and deletion of the `NodeDeploy` object: one object exists throughout, and a failed read ends a call.
- The server may keep the version when an update changes nothing. Here such an update also makes a new version; to other
  calls that looks like one more harmless write.
- When the controller is called again: the source does not requeue on an unexpired claim, so a call may start at any
  time or never, and no recovery within a given time is claimed.
- Convergence.Converges: counts calls that end, one after the other, of which updates may land during later ones; calls
  that are under way at the same time are the subject of `Overlap.ConvergesOverlapping`. That a retry loop without a
  limit ends is not claimed.
- `Progress.Reset` has a contract but no row: nothing calls it.
- Operations.LaunchNode: each operation starts from its own versions of the cluster Node, so what one operation did to
  the Node is not what the next one finds.
