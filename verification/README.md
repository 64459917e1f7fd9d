# KubeZap operator: a verified model

KubeZap runs user-defined Flows on Kubernetes. A Trigger creates a FlowRun, the
controller executes the Flow's step graph one wave per reconcile, and gateways
turn Kafka, webhook, cron and resource events into FlowRuns. This project models
the parts of the operator whose correctness is hard to see from any one function
and proves what they promise.

| file | what it holds |
|---|---|
| `Common.dfy`, `Int64.dfy` | optional values, stored clock readings, 64-bit wrap-around |
| `Flows.dfy` | Flow specs, recorded step statuses, dependency tests, closed sets of the step graph |
| `Engine.dfy` | one reconcile of a FlowRun, cut at its API writes: for the object a worker holds and the place it has reached, the next write |
| `Reconciler.dfy` | the same reconcile as it runs, loops over a mutable local copy, proved to compute `Engine.Segment` |
| `RunSafety.dfy` | what every write keeps; the recorded list is a topological order of what ran |
| `Cluster.dfy` | any number of workers and startup scans over one object with compare-and-swap versions, stale reads, crashes and metadata edits |
| `Outcomes.dfy` | what finished runs say about the step graph, what is executed when, why a run ends as it does |
| `Progress.dfy` | undisturbed reconciles end the run |
| `Endings.dfy` | they are runs of the cluster, and end in the Flow's meaning |
| `Semantics.dfy` | the meaning of a Flow as a recursive evaluation of its graph, and the refinement proof |
| `Verdicts.dfy` | meanings and final phases in the terms of the spec's own fields; time stamps, failing fast, finalizer and label |
| `Interpolation.dfy`, `InterpolatedTokens.dfy` | the single-pass template interpolator with its actual and display outputs; what each kind of token becomes |
| `WebhookCerts.dfy`, `CertRotation.dfy`, `CertIssue.dfy` | the leaderless certificate protocol over one Secret, N disks and one webhook configuration; when leaves are issued |
| `SecretIndex.dfy`, `KafkaSubscriptions.dfy`, `KafkaFields.dfy`, `KafkaWatcher.dfy` | the reverse index, what each watch event should do to the subscriptions, the same field by field, and the watcher that does it |
| `Scram.dfy`, `ScramServer.dfy` | the SCRAM client, and an honest server written from RFC 5802 (sections 3, 5.1 and 7) without the client's functions |
| `WebhookCooldown.dfy`, `CronCooldown.dfy`, `ResourceCooldown.dfy` | the three rate limiters |
| `Gc.dfy`, `Retry.dfy` | count-based clean-up of finished runs, retry delays |

## How the engine is modelled

Between two API calls a worker's copy of a FlowRun is exactly a stored version, so
a worker is a version number and a place in `Reconcile` (`Engine.Pc`). A write
succeeds only against the newest version. Reads may return any earlier version,
a worker may stop anywhere, and anyone may edit metadata at any time. The clock,
the verdicts of `when` expressions, the outcomes of actions, the reachability of
the executor and the read of the Flow are inputs of each step and may differ from
step to step; only the refinement theorems ask that verdicts and outcomes are
functions of what a step's `runAfter` ancestors recorded (`Semantics.Local`). The
Flow itself does not change during a run, and its step names are distinct, as the
API server's list-map key enforces.

## Where code and documentation differ

The model follows the code.

- A failure is tolerated if the step says `onFailure: Continue` or the Flow says
  `failurePolicy: Continue`; the comment before the final verdict reads as if only
  the first counted. `onFailure: Skip` behaves as `Fail`.
- The FlowRun reference says Succeeded means every non-skipped step succeeded. That holds
  exactly when the graph has no cycle and no dangling reference and nothing fails in the
  Flow's meaning (`Endings.AllSucceededIff`). A tolerated failure breaks it
  (`Endings.LoneFailureSucceeds`), and so does a cycle (`Endings.CyclicFlowSucceeds`).
- Flow validation does not look for cycles. A FlowRun of a cyclic Flow can reach
  Succeeded without running the steps on and behind the cycle
  (`Endings.CyclicFlowSucceeds`), and never does so having run them all
  (`Outcomes.SucceededRanAllIffAcyclic`).
- The state model names deletion as the only way to Cancelled; the cancel
  annotation is another.
- The certificate design asks that the caBundle is updated no later than the served
  certificate. The code writes the files first, but a process serves only after its first
  Ensure has returned, and rotation does not change the CA, so the two never disagree
  (`CertRotation.BundleNeverLags`), unless the configuration is written from outside while
  a replica relies on it (`CertRotation.OutsideWriteIff`): Ensure skips a configuration that
  does not exist yet (`CertRotation.LateConfigurationDisagrees`). The CA itself is never
  renewed.
- A rotation that finds an unusable CA in the Secret is said to start over. It creates the
  Secret under a name that is taken, so nothing is ever stored (`CertIssue.NeverRepaired`).
- The cron window start is stored in whole seconds, rounded down, so a firing late within
  its second lets the next window begin early. Since a FlowRun is named after its second,
  this doubles the budget only for MaxInvocations 1, and for 2 under windows longer than two
  seconds that are not whole seconds (`CronCooldown.NeverDoubledIffTight`). A second firing within one second
  spends budget without creating a FlowRun (`CronCooldown.LimitedIffSpent`).
- Cooldown entries are swept after an hour whatever the configured cooldown; longer
  cooldowns are cut short (`ResourceCooldown.EvictionTransparentIff`).
- A Trigger is meant to be indexed under its Secrets whether or not they can be read. The
  code lists a Secret only after reading it, so the creation of a missing Secret goes
  unnoticed (`KafkaSubscriptions.SecretFollowedIff`). Changes of brokers, SASL
  mechanism or TLS flags alone do not restart a consumer
  (`KafkaSubscriptions.SettingsChangeUnseen`).
- SCRAM user names are sent without the escapes of section 5.1 of RFC 5802
  (`ScramServer.UserIsReadIffPlain`).
- An exponential retry delay overflows; from the 65th retry on it is zero. A fixed
  delay ignores MaxDelay (`Retry.ExponentialDelayCollapses`, `Retry.DelayWithinMax`).
- A count cap of 0 deletes every finished run, while the field's comment says it
  switches the cap off (`Gc.EnforceMax`).

## Model

| member | source | states |
|---|---|---|
| Reconciler.LocalRun.Advance | internal/controller/flowrun_controller.go:217-735 | from any place in the reconcile, the loops issue exactly the API write of the protocol model and leave the local copy as the server will return it |
| Outcomes.CancelledIffRequested | internal/controller/flowrun_controller.go:237-255 | from any place of a reconcile a run is cancelled if and only if the reconcile starts on a Running object that is being deleted or annotated |
| Reconciler.LocalRun.ProcessBody | internal/controller/flowrun_controller.go:321-396 | timeout and parameter failures come first, then the all-settled test |
| Reconciler.LocalRun.Survey | internal/controller/flowrun_controller.go:377-394 | one pass computes both "everything settled" and "something running" |
| Reconciler.LocalRun.InlinePass | internal/controller/flowrun_controller.go:410-473 | the in-place pass records the updates of the recursive scan, each seen by the steps after it, and stops at the first `when` error |
| Reconciler.LocalRun.InlineThenWave | internal/controller/flowrun_controller.go:405-488 | a recorded skip or failure ends the reconcile before any step is executed |
| Reconciler.LocalRun.CollectWave | internal/controller/flowrun_controller.go:490-516 | the wave is every eligible step in spec order, waiting waits re-admitted |
| Reconciler.LocalRun.WavePass | internal/controller/flowrun_controller.go:518-579 | the first wait of the wave is handled alone; otherwise the wave runs |
| Reconciler.LocalRun.RunWave | internal/controller/flowrun_controller.go:581-682 | an unreachable executor discards the wave; else one batched update and the fatal flag |
| Reconciler.LocalRun.Conclude | internal/controller/flowrun_controller.go:686-734 | Failed exactly when a recorded failure is tolerated by neither step nor Flow |
| Outcomes.EndingWrite | internal/controller/flowrun_controller.go:1666-1703 | from any place, a write that ends a run stores phase and completion time together and changes nothing else of the status |
| Outcomes.VerdictComesLast | internal/controller/flowrun_controller.go:704-734 | under any interleaving the version that ends a run differs from the one before it in phase and completion time only |
| Reconciler.LocalRun.UpsertStepStatus | internal/controller/flowrun_controller.go:2125-2133 | the in-place loop replaces the entry of that name or appends it |
| Flows.FindUpsert | internal/controller/flowrun_controller.go:2116-2133 | reading back an upsert: the new entry under its name, every other name untouched |
| Flows.RankedInClosed | internal/controller/flow_controller.go:99-114 | in an acyclic graph without dangling references every closed set contains every step |
| RunSafety.LegalKeepsOrder | internal/controller/flowrun_controller.go:1740-1767 | recording a step whose dependencies are met keeps the list a topological order, also when a Waiting entry is replaced in the middle |
| RunSafety.LegalAllKeeps | internal/controller/flowrun_controller.go:656-673 | a batch of updates keeps the order, freezes settled entries and never raises the measure |
| RunSafety.InlineLegal | internal/controller/flowrun_controller.go:410-473 | every inline transition is such an update |
| RunSafety.WaitLegal | internal/controller/flowrun_controller.go:1594-1631 | so is every examination of a wait step, with the resume time kept and the duration respected |
| RunSafety.WaveLegal | internal/controller/flowrun_controller.go:656-670 | so is every result of a wave, although the dependencies were evaluated before the batch |
| RunSafety.QuietComplete | internal/controller/flowrun_controller.go:518-524 | an empty wave with nothing running and no fatal failure means everything that could run has settled |
| RunSafety.SegmentGood | internal/controller/flowrun_controller.go:217-735 | every write of a reconcile, for all inputs, goes along a legal edge to a state satisfying the invariant |
| RunSafety.SegmentJustified | internal/controller/flowrun_controller.go:237-339 | a run is failed only for a recorded fatal failure or an outside cause, cancelled only on request, and never succeeds over a fatal failure |
| Cluster.RunKeepsInv | internal/controller/flowrun_controller.go:2623-2647 | the invariant survives every interleaving of workers, startup scans, lost updates, crashes and edits |
| Cluster.HistorySafe | internal/controller/flowrun_controller.go:237-339 | phases follow the diagram, a terminal status is never written again and carries its completion time, a settled step status never changes |
| Cluster.WaitKeepsResumeTime | internal/controller/flowrun_controller.go:1611-1630 | between any two versions a Waiting entry is unchanged, resume time included, or succeeded at or after it |
| Cluster.StepWritesBounded | internal/controller/flowrun_controller.go:396-683 | over the life of an object the step list changes at most twice per step, however workers interleave |
| Outcomes.SucceededIsLeastFixpoint | internal/controller/flowrun_controller.go:375-394 | on any graph, a Succeeded run has statuses on exactly the least set closed under "all runAfter in the set", all settled, every failure tolerated |
| Outcomes.SucceededRanAllIffAcyclic | internal/controller/flowrun_controller.go:518-525 | a Succeeded run settled every step if and only if the graph is acyclic without dangling references |
| Outcomes.InlineNeverSucceeds | internal/controller/flowrun_controller.go:355-362 | the inline pass adds no success and no results, so the results read at the start stay current |
| Outcomes.SuccessWasExecuted | internal/controller/flowrun_controller.go:591-670 | an executor step newly recorded as Succeeded was executed by the segment that records it |
| Outcomes.NothingRunsDuringWait | internal/controller/flowrun_controller.go:526-579 | in every reachable state no executor step runs against a version with a Waiting step, no recorded step runs again, dependencies come first |
| Outcomes.UnreachableRecordsNothing | internal/controller/flowrun_controller.go:640-654 | a transport failure of one step leaves nothing of its wave on record |
| Outcomes.WaitPausesForDuration | internal/controller/flowrun_controller.go:1625-1630 | in any run a succeeded wait completed its duration after its recorded start, up to one second |
| Outcomes.FailedOnlyForFatalStep | internal/controller/flowrun_controller.go:675-677 | without outside causes, Failed means an untolerated failure is on record, also across crashes between the two writes |
| Progress.EmptyWaveNeverRunning | internal/controller/flowrun_controller.go:518-523 | the requeue for an empty wave with a running step is never taken |
| Progress.WaveAdvancesIff | internal/controller/flowrun_controller.go:518-682 | a wave ends the run or lowers the measure if and only if its first wait has elapsed, or, without a wait, the executor is reachable for each of its steps |
| Progress.StartAdvancesIff | internal/controller/flowrun_controller.go:237-682 | so does the first write of a reconcile of a Running object, if and only if the Flow can be read (or the run is to be cancelled) and the wave it gets to, if any, is ready |
| Progress.ReconcileProgress | internal/controller/flowrun_controller.go:410-682 | such a reconcile as a whole ends the run or lowers 2 x (steps without status) + (waiting steps) |
| Engine.SegmentForward | internal/controller/flowrun_controller.go:217-735 | every write moves a worker strictly forward through the reconcile |
| Progress.RunEnds | internal/controller/flowrun_controller.go:341-353 | a Running object of n steps is terminal after at most 2n + 1 undisturbed reconciles |
| Endings.SoloIsRun | internal/controller/flowrun_controller.go:217-735 | an undisturbed reconcile is a run of the cluster: one worker's events, ending in the same object |
| Endings.UndisturbedRunEnds | internal/controller/flowrun_controller.go:217-735 | from creation, 2n + 2 calm undisturbed reconciles are a cluster run that is Failed if the meaning has an untolerated failure, and otherwise Succeeded with the whole meaning on record |
| Endings.SomeRunEnds | internal/controller/flowrun_controller.go:686-734 | every created FlowRun of every Flow has such a run, with a clock that starts anywhere and never goes back |
| Endings.CyclicFlowSucceeds | internal/controller/flowrun_controller.go:518-525 | for every Flow with a cycle or dangling reference and no fatal failure, some run with a forward clock is Succeeded although a step never ran |
| Endings.AllSucceededIff | docs/api/flowrun.md:103 | in a Succeeded run every step of the Flow succeeded or was skipped if and only if the graph has no cycle and no dangling reference and nothing fails in the Flow's meaning |
| Endings.ToleratedFailureSucceeds | internal/controller/flowrun_controller.go:686-702 | if something fails in the meaning and all of it is tolerated, some run is Succeeded with a failed step on record |
| Endings.LoneFailureSucceeds | internal/controller/flowrun_controller.go:686-702 | a single step that fails and says `onFailure: Continue` is such a Flow |
| Semantics.MeaningIsFixpoint | internal/controller/flowrun_controller.go:1740-1767 | the evaluation gives a value to exactly the steps whose dependencies have usable values in it, and the value is the step evaluated in it |
| Semantics.MeaningIsUnique | internal/controller/flowrun_controller.go:2102-2114 | on an acyclic Flow it is the only solution of the recursion |
| Semantics.SpecOrderIrrelevant | internal/controller/flowrun_controller.go:410-516 | permuting the spec's steps does not change the meaning |
| Semantics.SeesAncestors | internal/controller/flowrun_controller.go:1970-2100 | a step whose dependencies are met evaluates, on what is recorded so far, to its meaning |
| Semantics.WavesRefineEvaluation | internal/controller/flowrun_controller.go:396-683 | every settled status in any version has the phase and results of the recursive evaluation, whatever the schedule, retries, lost updates and crashes |
| Semantics.SucceededIsMeaning | internal/controller/flowrun_controller.go:686-724 | a Succeeded run has recorded the whole meaning, so two Succeeded runs agree on every step |
| Semantics.VerdictIsMeaning | internal/controller/flowrun_controller.go:686-702 | without outside causes the final phase is Succeeded exactly when the meaning has no untolerated failure |
| Verdicts.HasMeaningIff | internal/controller/flowrun_controller.go:1740-1767 | a step has a value in the meaning if and only if each step it runs after has one and is not failed, unless the Flow or that step says Continue |
| Verdicts.MeaningIs | internal/controller/flowrun_controller.go:410-473 | and the value is: skipped behind skips only, skipped or failed by its `when`, a wait by its duration, else the outcome of its action on the others' values |
| Verdicts.ContinueNeverFails | internal/controller/flowrun_controller.go:686-700 | without outside causes a Flow with failurePolicy Continue never fails, over every run |
| Verdicts.FailedIffStepFails | internal/controller/flowrun_controller.go:686-700 | and any other Flow fails if and only if some step without onFailure Continue fails in the meaning; Skip counts as Fail |
| Verdicts.FailsFastIff | internal/controller/flowrun_controller.go:629-680 | a reconcile goes on to fail the run if and only if its write adds a failed step without onFailure Continue under a Flow that does not continue |
| Verdicts.WhenErrorContinues | internal/controller/flowrun_controller.go:432-458 | a `when` error is passed over to the next step if Flow or step continue, and ends the run otherwise |
| Verdicts.OverdueIsFailed | internal/controller/flowrun_controller.go:331-339 | a Running object past the execution timeout is Failed by the next reconcile that reads the Flow |
| Verdicts.OrphanIsFailed | internal/controller/flowrun_controller.go:2623-2648 | the startup scan fails such an object, completion time included |
| Verdicts.NeverFailedForTime | internal/controller/flowrun_controller.go:331-339 | with readings within the timeout and no other outside cause, a Failed version holds a failed step that nothing continues |
| Verdicts.StartingWrite | internal/controller/flowrun_controller.go:301-319 | the write that starts a run stamps its start time, changes no step, and the reconcile goes on |
| Verdicts.NewEntriesStamped | internal/controller/flowrun_controller.go:1594-1631 | whatever a write adds to the step list carries the reconcile's clock reading, a pause its start and the end of its duration |
| Verdicts.ExecutedStamped | internal/controller/flowrun_controller.go:656-673 | every step a wave runs is on record with the reading as start and completion |
| Verdicts.RemovedIsFinal | internal/controller/flowrun_controller.go:220-223 | no run stores anything for an object that is gone |
| Verdicts.FinalizerHeld | internal/controller/flowrun_controller.go:283-300 | unedited, every Running version holds the executing finalizer, and a label is the phase the run ended in |
| Verdicts.SoloLabels | internal/controller/flowrun_controller.go:1698-1703 | a reconcile that ends a run leaves its phase as label and takes the finalizer off |
| Interpolation.PrintParse | internal/controller/flowrun_controller.go:2261-2308 | printing the segments of a template gives it back |
| Interpolation.SegmentationUnique | internal/controller/flowrun_controller.go:2261-2308 | segmentation is a bijection between strings and canonical templates |
| Interpolation.ParseConcat | internal/controller/flowrun_controller.go:2263-2307 | parsing distributes over concatenation if and only if no token straddles the boundary |
| Interpolation.PrintParseToken | internal/controller/flowrun_controller.go:2317-2404 | every token is the printed form of what it is read as |
| Interpolation.Interpolate | internal/controller/flowrun_controller.go:2241-2309 | the index-and-buffers scan, body parsed lazily, equals rendering the parsed template; the first failing secret aborts |
| Interpolation.InterpolateConcat | internal/controller/flowrun_controller.go:2222-2234 | both outputs distribute over concatenation at unstraddled boundaries |
| Interpolation.OnlyTemplateSecretsRead | internal/controller/flowrun_controller.go:2227-2234 | the result depends on the secret source only at references written in the template, never on substituted values |
| Interpolation.DisplayHidesSecrets | internal/controller/flowrun_controller.go:2290-2305 | two secret sources under which interpolation succeeds give the same display |
| Interpolation.OutputsDifferOnlyAtSecrets | internal/controller/flowrun_controller.go:2295-2305 | both outputs are the same template filled in, and differ only at secret tokens, where display shows the marker |
| Interpolation.NoSecretsNoDifference | internal/controller/flowrun_controller.go:2217-2220 | without a secret source interpolation never fails and both outputs agree; a template without secrets renders the same with one |
| Interpolation.OrderUnseenIff | internal/controller/flowrun_controller.go:2336-2345 | no lookup can observe the map's iteration order if and only if steps whose names collide after normalization have equal results |
| Interpolation.LowerHeaders | internal/controller/flowrun_controller.go:2248-2254 | the loop keeps of header names that collide after lower-casing the last one |
| Interpolation.IterationOrderIff | internal/controller/flowrun_controller.go:2241-2309 | every template renders the same in every iteration order of both maps if and only if colliding steps show the same text for every token that can be written and colliding headers have the same value |
| Interpolation.PlainIsWritable | internal/controller/flowrun_controller.go:2327-2335 | results of steps whose names hold no dot or parenthesis can always be named by a token |
| InterpolatedTokens.ParamRenders | internal/controller/flowrun_controller.go:2346-2351 | $(params.n) becomes the parameter n, and stays as written if there is none |
| InterpolatedTokens.BodyRenders | internal/controller/flowrun_controller.go:2353-2357 | $(trigger.body) becomes the body |
| InterpolatedTokens.BodyFieldRenders | internal/controller/flowrun_controller.go:2359-2364 | $(trigger.body.path) becomes the parsed body's value at the path, and stays as written without trigger, body or parse |
| InterpolatedTokens.HeaderRenders | internal/controller/flowrun_controller.go:2366-2371 | $(trigger.headers.name) becomes the last header of that name in any case, and empty if there is none |
| InterpolatedTokens.ScalarRenders | internal/controller/flowrun_controller.go:2373-2381 | topic, partition, offset, key and scheduledTime each become their own field |
| InterpolatedTokens.StepRenders | internal/controller/flowrun_controller.go:2329-2345 | $(steps.name.results.key) becomes the result of the first step whose name reads so with hyphens as underscores, and stays as written otherwise |
| InterpolatedTokens.SecretRenders | internal/controller/flowrun_controller.go:2383-2400 | $(secrets.name.key) becomes the value, shown as [REDACTED]; an unreadable secret fails the template |
| InterpolatedTokens.UnknownRenders | internal/controller/flowrun_controller.go:2402-2404 | any other token stays as written |
| WebhookCerts.CaNeverChanges | internal/webhookcerts/webhookcerts.go:155-262 | every version of the Secret has the first version's CA and key and a leaf signed by it with its own key, for any number of replicas |
| WebhookCerts.DiskIsSigned | internal/webhookcerts/webhookcerts.go:293-312 | a certificate on any disk is signed by that CA, a fully written pair matches |
| WebhookCerts.PatchedBundleVerifies | internal/webhookcerts/webhookcerts.go:314-336 | once a replica has patched the configuration, every entry of that and every later version verifies every certificate any replica has or will have, through rotations and restarts, until someone else writes it |
| WebhookCerts.ServedPairMatches | internal/webhookcerts/webhookcerts.go:293-312 | at every moment, between the two file writes and after crashes included, the served certificate has its own key and is signed by the CA |
| WebhookCerts.LoadServesDisk | cmd/main.go:235-252 | a running process that looks at a complete pair of files serves it, a starting one serves it when its first Ensure returns |
| WebhookCerts.ServingNeedsReturn | cmd/main.go:219-252 | a process serves nothing before its first Ensure has returned, caBundle patch included |
| WebhookCerts.ServedLeafUnexpired | internal/webhookcerts/webhookcerts.go:264-274 | with leaves living at least the rotation margin, a served leaf is unexpired for that margin after it was judged fresh or issued, whatever is on the disk |
| CertRotation.TickServes | internal/webhookcerts/rotator.go:48-66 | from the load that completes a tick on, what the replica serves, if anything, was judged after the tick began, whatever failures, restarts, stale reads, rotations and other replicas follow |
| CertRotation.RecentTickSuffices | internal/webhookcerts/rotator.go:48-66 | a replica that has completed a tick begun within the rotation margin serves no expired certificate |
| CertRotation.NeverExpiresIff | internal/webhookcerts/rotator.go:48-66 | one successful tick per rotation margin keeps every replica from ever serving an expired certificate, over every run, if and only if leaves live at least the margin (or the margin is negative) |
| CertRotation.BundleNeverLags | docs/design/self-managed-webhook-certs.md:16 | in every run, whatever failures, restarts, stale reads and rotations, the newest configuration verifies every served certificate, as long as each outside write of it comes while no replica relies on it or verifies what the CA signs |
| CertRotation.PatchRestoresAgreement | internal/webhookcerts/webhookcerts.go:314-336 | a patch by any replica ends a disagreement |
| CertRotation.LateConfigurationDisagrees | internal/webhookcerts/webhookcerts.go:141-146 | a replica that starts while there is no configuration serves, and one applied afterwards does not verify its certificate |
| CertRotation.OutsideWriteIff | internal/webhookcerts/webhookcerts.go:128-151 | after an outside write configuration and served certificates agree ever after, further outside writes apart, if and only if no replica served or had just found the configuration current, or all entries written verify what the CA signs |
| WebhookCerts.NextKeeps | internal/webhookcerts/webhookcerts.go:128-151 | each API call, file write, failure, restart, load or stale read of any replica and each outside write of the configuration keeps the protocol invariant |
| WebhookCerts.PatchEntries | internal/webhookcerts/webhookcerts.go:324-333 | the loop sets every entry to the CA and reports a change exactly when one differed |
| CertIssue.KeptIff | internal/webhookcerts/webhookcerts.go:264-274 | a Secret is installed as read if and only if certificate, key and CA are there, the certificate parses and it outlives the rotation margin; otherwise it is rotated |
| CertIssue.RotationCompletes | internal/webhookcerts/webhookcerts.go:219-262 | a rotation that meets no other writer stores and installs a leaf of full validity under the same CA |
| CertIssue.ConflictRetries | internal/webhookcerts/webhookcerts.go:229-258 | one that met another writer stores nothing and is tried again |
| CertIssue.NoLostUpdate | internal/webhookcerts/webhookcerts.go:229-258 | a version is added only by a rotation that read the newest one |
| CertIssue.FullValidity | internal/webhookcerts/webhookcerts.go:183-246 | CA and leaf live their configured validity, the leaf is signed by that CA and has its own key |
| CertIssue.IssuedOnlyWhenDue | internal/webhookcerts/webhookcerts.go:264-274 | over every run, each Secret version after the first was issued when an earlier version's leaf was within the rotation margin |
| CertIssue.LongLivedIsKept | internal/webhookcerts/webhookcerts.go:177-180 | so a Secret whose leaves all outlive the margin has never gained a version |
| CertIssue.NeverRepaired | internal/webhookcerts/webhookcerts.go:219-227 | from any state in which no version has a usable CA, no run stores another version |
| CertIssue.RestartStartsOver | cmd/main.go:219-252 | a restarted process serves nothing, on its old disk or an empty one |
| SecretIndex.Index.Update | internal/gateway/secretindex/secretindex.go:42-67 | the two nested maps stay mutual inverses without empty buckets; only that object's dependencies change |
| SecretIndex.Index.Remove | internal/gateway/secretindex/secretindex.go:72-74 | the object is gone from the index, nothing else changes |
| SecretIndex.Index.ObjectsFor | internal/gateway/secretindex/secretindex.go:78-91 | each dependent object exactly once |
| SecretIndex.AfterIsLatest | internal/gateway/secretindex/secretindex.go:36-41 | after any calls an object depends on exactly what its latest call listed |
| SecretIndex.Replay | internal/gateway/secretindex/secretindex.go:42-91 | after any sequence of calls the reported objects are those whose latest call listed the secret |
| KafkaWatcher.Watcher.ReconcileTrigger | internal/gateway/kafka/watcher.go:257-321 | the Trigger's own entries change as its spec and the cluster ask, no others; a consumer survives exactly when its configuration does; no consumer leaks |
| KafkaWatcher.Watcher.FollowIntegration | internal/gateway/kafka/watcher.go:281-320 | unreadable or unresolved credentials leave the subscription alone, the index gets exactly the Secrets that were read |
| KafkaWatcher.Watcher.Resubscribe | internal/gateway/kafka/watcher.go:308-320 | an unchanged subscription is kept, a changed one is cancelled before its successor starts, with a new consumer |
| KafkaWatcher.Watcher.StopSubscription | internal/gateway/kafka/watcher.go:445-450 | the entry and its consumer go together |
| KafkaWatcher.Watcher.StartSubscription | internal/gateway/kafka/watcher.go:325-442 | one new consumer, recorded under the Trigger's key |
| KafkaWatcher.Watcher.OnTriggerDelete | internal/gateway/kafka/watcher.go:232-254 | every trace of the Trigger is removed, nothing else |
| KafkaWatcher.Watcher.Reprocess | internal/gateway/kafka/watcher.go:561-569 | the loop leaves the state it would leave in any order: each listed Trigger processed once as last seen |
| KafkaWatcher.Watcher.HandleSecretChange | internal/gateway/kafka/watcher.go:550-570 | exactly the Triggers indexed under the Secret are processed |
| KafkaWatcher.Watcher.HandleIntegrationChange | internal/gateway/kafka/watcher.go:582-602 | exactly the Triggers a full scan by IntegrationRef would find are processed |
| KafkaWatcher.Watcher.HandleAll | internal/gateway/kafka/watcher.go:155-190 | after any events: the state the events call for, one running consumer per entry and no other, the Integration index equal to a full scan |
| KafkaSubscriptions.ReprocessOne | internal/gateway/kafka/watcher.go:561-569 | processing one more Trigger commutes with what was processed before it |
| KafkaSubscriptions.NeverStale | internal/gateway/kafka/watcher.go:572-602 | over every run whose changes are announced and hit no blocked Trigger, each resolvable active Trigger consumes as its spec asks with the current fingerprint, and is indexed under exactly the Secrets it now reads |
| KafkaSubscriptions.FollowsLastProcessed | internal/gateway/kafka/watcher.go:155-190 | over any run at all, deletions and unheard changes included, every known Trigger follows the world in which it was last processed |
| KafkaSubscriptions.RecreatedSecretIsFollowed | internal/gateway/kafka/watcher.go:171-179 | a Secret that was deleted and comes back is noticed by every Trigger that had read it when last processed |
| KafkaSubscriptions.IndexedIffGotPast | internal/gateway/kafka/watcher.go:509-544 | a Secret's change reaches a Trigger if and only if the last resolution read that Secret's group successfully |
| KafkaSubscriptions.SecretFollowedIff | internal/gateway/kafka/watcher.go:550-570 | a Secret's event brings the watcher back in step, whatever the Secret changed to, if and only if no Trigger is blocked by it: waiting for that Secret alone without having read it |
| KafkaSubscriptions.CreatedSecretIsMissed | internal/gateway/kafka/watcher.go:296-305 | once what a blocked Trigger waits for is readable, the event leaves its subscription and index entry out of date |
| KafkaSubscriptions.SettingsChangeUnseen | internal/gateway/kafka/watcher.go:308-312 | a change of brokers, mechanism or TLS flags alone leaves the consumer on the old ones |
| KafkaSubscriptions.CurrentIffRestartedOrSame | internal/gateway/kafka/watcher.go:308-316 | after processing, settings and credentials in use are current if and only if the comparison forced a restart or neither had changed |
| KafkaSubscriptions.SameLengthsAreSeen | internal/gateway/kafka/watcher.go:520-542 | credentials whose CA and user name keep their lengths have equal fingerprints only if equal |
| KafkaSubscriptions.MovedBoundaryUnseen | internal/gateway/kafka/watcher.go:538-539 | characters moved between user name and password leave the fingerprint unchanged |
| KafkaFields.ProcessedIs | internal/gateway/kafka/watcher.go:257-321 | field by field, what processing a Trigger leaves: its topic, its group or the default one, its Integration, the values of CA, user name and password as read now |
| KafkaFields.IndexedIs | internal/gateway/kafka/watcher.go:509-544 | the Secrets it is indexed under: none if the CA cannot be read, the CA's if the login cannot, else all three |
| KafkaFields.ConsumesAsAsked | internal/gateway/kafka/watcher.go:155-190 | over every announced run that hits no blocked Trigger, each enabled kafka Trigger with readable credentials consumes the topic, group and Integration of its spec with the values its Secrets hold |
| Scram.ScramHi | internal/gateway/kafka/watcher.go:720-736 | the in-place loop computes Hi, the XOR of the HMAC chain |
| Scram.HiIff | internal/gateway/kafka/watcher.go:720-736 | Hi is the byte-wise XOR of the sequence U that starts at salt and block number and is chained by HMAC |
| Scram.XorInto | internal/gateway/kafka/watcher.go:731-733 | the buffer is XORed byte by byte |
| Scram.XorTwice | internal/gateway/kafka/watcher.go:777-783 | XOR with the same bytes undoes itself |
| Scram.ParseAttrs | internal/gateway/kafka/watcher.go:751-760 | for every letter the map holds the last attribute of that name |
| Scram.ThreeAttrs | internal/gateway/kafka/watcher.go:751-760 | comma-free attributes are read back from the message they were joined into |
| Scram.ParseIter | internal/gateway/kafka/watcher.go:763-775 | the digit loop yields the 64-bit wrapped decimal value if positive, an error otherwise |
| Scram.IterationsExact | internal/gateway/kafka/watcher.go:763-775 | a digit string is read as its value if and only if the value is positive and fits in 64 bits |
| Scram.Client.Step | internal/gateway/kafka/watcher.go:639-713 | the three messages, their error cases, and the state kept between them |
| Scram.Client.Answer | internal/gateway/kafka/watcher.go:645-689 | rejects each malformed server-first message, else answers with the proof of RFC 5802 |
| Scram.ServerFirstReadIff | internal/gateway/kafka/watcher.go:645-673 | attributes r, s and i are read as nonce, salt and count if the nonce extends the client's, the salt decodes and the digit loop accepts the count, and refused otherwise |
| ScramServer.ServerFirstIsRead | internal/gateway/kafka/watcher.go:645-673 | an honest server-first message is read exactly as it was meant |
| ScramServer.ServerAccepts | internal/gateway/kafka/watcher.go:675-689 | the server recovers exactly ClientKey from the proof and accepts |
| Scram.ClientAcceptsOnly | internal/gateway/kafka/watcher.go:691-708 | the client accepts the honest server signature and no other |
| ScramServer.Exchange | internal/gateway/kafka/watcher.go:639-713 | a whole exchange with an honest server of the same password ends with both sides accepting |
| ScramServer.UserIsReadIffPlain | internal/gateway/kafka/watcher.go:643-643 | the server reads the intended user name if and only if it has no comma and no equals sign |
| WebhookCooldown.Tracker.Allow | internal/gateway/webhook/handler.go:52-79 | filtering the slice onto its own front keeps exactly the times in the window; other paths are untouched |
| WebhookCooldown.KeptAgain | internal/gateway/webhook/handler.go:63-70 | pruning twice, to a later cutoff, is pruning once |
| WebhookCooldown.Serve | internal/gateway/webhook/handler.go:49-79 | on every request sequence in time order a request is allowed if and only if fewer than the budget were allowed on its path in the window ending now |
| WebhookCooldown.NeverOverBudget | internal/gateway/webhook/handler.go:52-79 | no window of the configured length holds more allowed requests of a path than the budget |
| CronCooldown.PatchesCommute | internal/controller/cron_scheduler.go:139-144 | merge patches that write different fields do not disturb each other, whatever copies they were computed from |
| CronCooldown.StoredTrigger.Fire | internal/controller/cron_scheduler.go:99-215 | the staged patches of a firing leave the stored window start where it was opened, whatever the local copy says; a name taken in that second refuses the FlowRun after the count is spent |
| CronCooldown.FireAll | internal/controller/cron_scheduler.go:99-215 | firing after firing through the stored object creates exactly the run's FlowRuns |
| CronCooldown.WindowBudget | internal/controller/cron_scheduler.go:113-170 | every stored window yields at most MaxInvocations FlowRuns, also when creations or final patches fail |
| CronCooldown.IntervalBudget | internal/controller/cron_scheduler.go:113-205 | whatever the window and the firings, one window length holds at most 2 x MaxInvocations FlowRuns, and one less under a tight policy |
| CronCooldown.NeverDoubledIffTight | internal/controller/cron_scheduler.go:113-205 | no run ever puts 2 x MaxInvocations FlowRuns into one window length if and only if the policy is tight: three or more invocations, or two with a window of whole seconds or at most two seconds (up to a nanosecond), or a window of at most a nanosecond |
| CronCooldown.OneIsDoubled | internal/controller/cron_scheduler.go:145-173 | a budget of one is doubled by a firing late within its second |
| CronCooldown.TwoIsDoubled | internal/controller/cron_scheduler.go:145-173 | a budget of two is doubled under every window longer than two seconds that is not whole seconds |
| CronCooldown.LimitedIffSpent | internal/controller/cron_scheduler.go:124-137 | a firing is rate limited if and only if it falls inside a stored window that has counted MaxInvocations firings, which are as many FlowRuns when no creation failed |
| CronCooldown.CreatedIff | internal/controller/cron_scheduler.go:113-215 | a firing creates a FlowRun if and only if it is not limited, its count is stored, its name is free and the creation is accepted |
| ResourceCooldown.WatchAll | internal/controller/resource_watcher.go:342-358 | event after event through the watcher, sweeper running, admits exactly what the run's specification admits |
| ResourceCooldown.Watcher.Sweep | internal/controller/resource_watcher.go:136-143 | exactly the entries older than the eviction window go |
| ResourceCooldown.Watcher.Deregister | internal/controller/resource_watcher.go:185-199 | exactly the entries with the Trigger's prefix go |
| ResourceCooldown.DeregisterIsExact | internal/controller/resource_watcher.go:181-199 | that prefix matches a key if and only if the key is that Trigger's |
| ResourceCooldown.KeysDiffer | internal/controller/resource_watcher.go:344-344 | events of different Triggers, objects or kinds have different cooldown keys |
| ResourceCooldown.EvictionTransparentIff | internal/controller/resource_watcher.go:62-69 | sweeping never changes an admission if and only if cooldowns do not outlast the eviction window |
| ResourceCooldown.AdmissionsSpaced | internal/controller/resource_watcher.go:343-358 | two admitted events of a key are at least the cooldown apart unless the Trigger was deregistered in between |
| ResourceCooldown.SuppressionHasCause | internal/controller/resource_watcher.go:346-355 | an event is suppressed only because an admitted one of its key precedes it by less than its cooldown |
| Gc.ComparatorIffCompleted | internal/controller/flowrun_controller.go:1900-1910 | the sort comparator is a strict weak order exactly on lists whose items all carry a completion time |
| Gc.DeleteOldest | internal/controller/flowrun_controller.go:1912-1921 | what is deleted completed no later than what is kept, also when a delete fails half-way |
| Gc.FinishedAreOrdered | internal/controller/flowrun_controller.go:1900-1910 | items taken from versions any run has stored carry completion times once terminal, so on them the comparator is a strict weak order |
| Gc.EnforceMax | internal/controller/flowrun_controller.go:1870-1922 | only unretained runs of the phase are touched, without a failing delete exactly the cap remains, and among finished runs what is deleted completed no later than what is kept |
| Retry.RetryDelay | internal/controller/flowrun_controller.go:1633-1660 | the doubling loop yields the 64-bit wrapped product, cut at MaxDelay |
| Retry.ProductIs | internal/controller/flowrun_controller.go:1642-1656 | before the cap: the initial delay (one second if unset), doubled with each further attempt, times the attempt, or fixed; one second without a policy |
| Retry.DelayIsCappedProduct | internal/controller/flowrun_controller.go:1642-1656 | while the product fits, the delay is the product cut at MaxDelay and does not fall with the attempt |
| Retry.UncappedIffFits | internal/controller/flowrun_controller.go:1642-1656 | without MaxDelay the delay is the product if and only if the product fits in 64 bits |
| Retry.CappedIffFitsOrAbove | internal/controller/flowrun_controller.go:1642-1656 | with MaxDelay the delay is the product cut there if and only if the product fits or its wrapped value is not below MaxDelay either |
| Retry.DelayWithinMax | internal/controller/flowrun_controller.go:1641-1659 | the delay stays within MaxDelay if and only if the backoff is not fixed or its initial delay does |
| Retry.ExponentialDelayCollapses | internal/controller/flowrun_controller.go:1642-1650 | from attempt 65 on an exponential delay is zero |
| Retry.TotalDelayBound | internal/controller/flowrun_controller.go:1633-1660 | the sum of delays is bounded for every policy, whatever overflows; a fixed policy sleeps exactly its bound |
| Retry.RunAttempts | internal/controller/flowrun_controller.go:900-949 | at most MaxRetries + 1 attempts, all but the last retryable, sleeping the sum of the delays in between, the last one cut short if the context expires in it |

## Left out

- CEL evaluation, JSON and form parsing, body-path traversal and the rendering of body values: inputs of the model.
- HTTP, Kafka, AMQP, NATS and AWS calls, SSRF checks and step timeouts: the outcome of an action is an input.
- Step attempts, messages and durations in a step status, conditions and metrics: they carry no decision.
- Changes to the Flow or to Trigger policies while a run or a window is in progress.
- Goroutines inside a wave: their results are joined before any status changes, so a wave is one transition.
- Clean-up of finalizer and phase label after a failed metadata update: the code does not guarantee it.
- TTL-based clean-up of finished runs: one comparison, nothing to relate it to.
- KafkaSubscriptions.NeverStale: asks that brokers accept, since nothing retries a refused connection, and that changes no informer reports make no difference; `FollowsLastProcessed` says what holds without that. Two sets of credentials with one concatenation count as one, as in the code, whose digest is taken as injective.
- KafkaWatcher.Watcher.ReconcileTrigger: several informers are modelled one handler call at a time; brokers, mechanism and TLS flags of an Integration are one value.
- CronCooldown.IntervalBudget: assumes fires one at a time and current reads, as the merge patches carry no resource version, and that no FlowRun is deleted within the second it was created in.
- ScramServer.Exchange: HMAC, hash, base64 and UTF-8 are parameters with the laws in `Scram.Sound`; password normalization is not modelled.
- CertRotation.NeverExpiresIff: certificates are compared by signing key, and verification against an expired CA is not modelled; the certificate watcher reads both files in one step and refuses a pair that does not match.
- CertRotation.BundleNeverLags: the deletion of a configuration is a write without entries, which Ensure treats alike; outside changes to the Secret are not modelled.
- The AMQP and NATS watchers and the producer's second SCRAM copy repeat code modelled once here.
- Resource builders, CLI, webhook authentication, access logs and the plugin protocol: no property across functions.
