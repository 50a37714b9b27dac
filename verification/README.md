# Costdeck, verified

Costdeck scales groups of Kubernetes namespaces and cloud targets down and up again, removes expired preview
namespaces, samples resource usage, counts the assistant's tokens and announces what happened. Almost all of that is
done by loops that read a stored status, act on a cluster and on clouds that may fail at any point, and write the
status back. This project models those loops and proves what every run of them keeps, whatever the environment
answers, whichever status writes fail and however passes, restarts and replicas interleave.

Each component has two layers. The code that changes things in place is a class whose methods contain the source's
loops and are proved to leave exactly the state a specification function names. The theorems are lemmas about that
function: over one pass where a pass is enough, and otherwise over arbitrary sequences of passes, runs, steps of
replicas or calls. The environment appears as data: an engine, provider or API answer that is not given is a failed
call, so every pattern of failures is covered.

| module | component |
|---|---|
| `Common` | options, Go's string order, sorting and compacting, one-second truncation, 64-bit wrap-around |
| `Stages` | the members of a group and the stages it scales them in |
| `ReplicaMap` | the flat `namespace/Kind/Name` replica map and the nested map it stands for |
| `CloudTargets` | what a group records about the cloud targets it stopped |
| `Release` | namespaces that leave a group |
| `Passes`, `Group` | one reconcile pass: the function, and the reconciler's methods proved equal to it |
| `PassOutcomes` | where a pass ends, in terms of what it was told and answered |
| `Barrier`, `Conservation`, `Bookkeeping` | what every run of passes keeps: stage order and timeouts, cloud targets, namespaces |
| `Announcements` | the transition log |
| `Finalizer` | deletion of a group |
| `GroupRuns` | concrete runs in which a property of the group modules meets its limit |
| `Reaper`, `ReaperOutcomes` | the preview-namespace reaper: one run, and what it leaves of each namespace |
| `ReaperRuns`, `ReaperHours`, `ReaperWarnings`, `ReaperExtensions` | over whole histories: the hourly limit, the warnings, extensions that shorten |
| `Sampling` | buffered usage sampling |
| `VersionedStore`, `SecretRace`, `AiUsage` | one API object under resource versions, and the two protocols replicas run on it |
| `RiskAlerts` | risk alerting |
| `Deliveries` | webhook de-duplication |

## Findings

Statements that hold only under a condition, and the condition:

- The record of stopped cloud targets stays exact if and only if the pass's status write succeeds or each of its calls
  was moot: a stop of a target recorded just so, or a start not seen ready or of a target not recorded
  (`Conservation.PassConserves`). In the run of `GroupRuns.FailedWriteLosesStop` the database is down and not on
  record.
- A group stored as ScaledUp may still record a target its sequence names. That happens exactly to targets hidden by
  an earlier spec entry with the same identifier (`Conservation.ScaledUpRecordsOnlyShadowed`, with the run
  `GroupRuns.ShadowedStaysRecorded`), and so never with unique identifiers.
- The stored stage index is a position. Without timeouts a stage that is not ready is passed over if and only if it
  lies below the index (`Barrier.PassedOverIff`), and if the stages change under a transition that stage may never
  have been ready (the run `GroupRuns.ChangedStagesArePassedOver`).
- An extension can shorten. A number of days wraps around in 64 bits and only an upper bound is checked, so "213503d"
  is accepted and means minus 23 hours and a half. A late warning's notice holds if and only if extensions are not
  negative (`ReaperExtensions.NoticeHoldsIff`, `ReaperExtensions.DaysKeepNoticeIff`); in the history of
  `ReaperExtensions.NoticeTakenBack` a namespace promised a day is deleted within 26 minutes.
- The limit of twenty deletions holds in every hour that is open at one end (`ReaperRuns.AtMostTwentyAnHour`). In an
  hour that includes both its ends it is forty (`ReaperHours.AtMostFortyAClosedHour`), which the history of
  `ReaperHours.FortyInAClosedHour` reaches.
- A label of n days means n days if and only if n is at most 106751. Past that the 64-bit duration wraps, and 213504
  days last under half an hour (`Reaper.DaysExactIff`, `Reaper.DaysOverflow`).
- Forgetting one namespace's replica counts spares another's if and only if neither name is the other followed by a
  slash; names without slashes never are (`ReplicaMap.ForgetSparesExactly`).
- A risk announcement whose state write fails is made again by the next check that sees the risk
  (`RiskAlerts.UnsavedIsRepeated`, with the two checks of `RiskAlerts.AnnouncedTwice`). Only written announcements
  hold later ones back (`RiskAlerts.AnnouncedIffQuietForADay`).
- The race for the Secret alone fails no replica if and only if the Secret is missing or usable at first
  (`SecretRace.NobodyFailsIff`). From an unusable one, the replica that loses the repair returns an error (the run
  `SecretRace.RepairLoserFails`).
- An add of usage can fail through the race alone: the second of two first adds at once (the run
  `AiUsage.SecondCreateFails`), since only a changed version is tried again, and one that five writes overtake (the
  run `AiUsage.FiveWritesCanFail`). Four writes never make one fail (`AiUsage.FourWritesFailNoAdd`). An add that
  fails is not counted.
- Webhook de-duplication goes on agreeing with an unbounded memory if and only if fewer than a thousand IDs are live
  when a new one comes (`Deliveries.AgreementKeptIff`); otherwise some ID still live is answered as new
  (`Deliveries.FloodForgets`).
- `addAIUsage` says it drops months older than a year (internal/api/ai_usage.go:67). The code keeps the twelve latest
  recorded months, whatever their age (`AiUsage.FewMonthsAllKept`, `AiUsage.OldMonthStays`), and an add for a month
  before twelve recorded ones succeeds and is pruned at once (`AiUsage.OwnMonthKeptIff`). The model follows the code.

## Modelling choices

- Instants are nanoseconds since Go's zero time; an instant written to the API loses its fraction of a second. Clock
  readings are part of a pass, one per call in the source; they need to be ordered only where a theorem says so.
- Answers of the scaling engine, cloud providers, restores and handovers are inputs by position. Which namespaces
  conflict is worked out from the owner of each namespace, as the planner does it, so that they are members is a fact
  and not an assumption.
- Sequence entries are lists of targets, already split at white space. An external target is its identity (provider,
  type, identifier, region) and one value for everything else.
- A pass starts from the stored status. The source reads the group from a cache: a write based on an outdated read is
  refused, which is a pass whose write fails, but a pass that leaves an outdated status exactly as it read it reports
  success without writing (internal/controller/schedule_status.go:113-118). That last case is not in the model.
- A pass that fails before it changes anything is not a pass of the model. A pass whose status write fails is one.
- Each API call is atomic and truthfully reported. Reads of Secrets and ConfigMaps are live (cmd/main.go:339-347);
  a cached read of a sampled namespace may be outdated, and the API server refuses writes based on it.
- Maps are iterated in any order; `sort.Slice` may return any ordered arrangement; the evicted webhook ID is any.
- A time-to-live label is given as parsed. Only the reaper writes the two reaper annotations.
- Risk keys are the five names they join; names hold no slash. Namespace names hold neither slash nor colon; the
  theorems that need it say so.

## Model

| member | source | states |
|---|---|---|
| Stages.Members | api/v1/scalinggroup_members.go:10-18 | strictly sorted, and holds exactly the listed namespaces and, under a selector, the selected ones |
| Stages.MembersCanonical | api/v1/scalinggroup_members.go:10-18 | order and repetition in spec or selection never show: equal sets give equal members |
| Stages.GetScalingStages | internal/controller/scalinggroup_controller.go:360-410 | the four loops compute the stages `StagesFor` describes; scaling down, stage i is the i-th last of the scale-up stages |
| Stages.ReverseBySwaps | internal/controller/scalinggroup_controller.go:404-408 | the in-place swap loop reverses |
| Stages.StageOccurrences | internal/controller/scalinggroup_controller.go:360-410 | how often each target takes part, in either direction: a managed namespace as often as named and once if not, a cloud target as often as named, anything else never |
| Stages.StageConstruction | internal/controller/scalinggroup_controller.go:360-410 | every unskipped member is in some stage, no skipped or foreign namespace is in any, and a member is scaled exactly once if and only if the sequence names it at most once |
| Stages.ScaleDownReversesScaleUp | internal/controller/scalinggroup_controller.go:404-409 | one target comes before another on the way down if and only if it comes after it on the way up |
| Stages.StagesFollowSequence | internal/controller/scalinggroup_controller.go:370-400 | scaling up, a target an earlier entry names is in an earlier stage than one a later entry names, and members no entry names come last |
| Stages.UnnamedTogether | internal/controller/scalinggroup_controller.go:384-402 | managed namespaces no entry names share one stage and none waits for another, in either direction and for every sequence |
| Stages.NoSequenceOneStage | internal/controller/scalinggroup_controller.go:400-402 | without a sequence there is one stage, of all managed namespaces |
| ReplicaMap.NamespaceOriginals | internal/controller/scalinggroup_controller.go:492-500 | the prefix loop returns exactly the counts recorded under the namespace |
| ReplicaMap.ForgetOriginals | internal/controller/scalinggroup_controller.go:784-790 | the deleting loop leaves exactly the entries not under the namespace |
| ReplicaMap.LookupRefines | internal/controller/scalinggroup_controller.go:492-500 | lookup in the flat map is lookup in the nested map |
| ReplicaMap.ListedIffCounted | internal/controller/scalinggroup_controller.go:855-859 | a namespace is listed from the keys if and only if it has counts |
| ReplicaMap.ForgetRefines | internal/controller/scalinggroup_controller.go:784-790 | forgetting removes one namespace from the nested map and leaves all others |
| ReplicaMap.MergeRefines | internal/controller/scalinggroup_controller.go:584-592 | merging after scaling replaces one namespace's counts in the nested map and leaves all others |
| ReplicaMap.NestedIsInjective | internal/controller/scalinggroup_controller.go:584-592 | nothing is lost in the refinement: two well-keyed flat maps with the same nested map are equal |
| ReplicaMap.StaysWellKeyed | internal/controller/scalinggroup_controller.go:590-592 | both updates keep every key in the namespace/workload form |
| ReplicaMap.ForgetSparesExactly | internal/controller/scalinggroup_controller.go:784-790 | forgetting a spares b's counts, whatever they are, if and only if neither name is the other followed by a slash |
| ReplicaMap.SlashFreeNeverOverlap | internal/controller/scalinggroup_controller.go:784-790 | slash-free names meet that condition unless equal |
| CloudTargets.ConservedStep | internal/controller/scalinggroup_controller.go:440-459 | one start or stop that took keeps the record equal to the outstanding stops, each once |
| CloudTargets.ConservedAll | internal/controller/scalinggroup_controller.go:440-459 | so does any sequence of calls, whatever the provider answers |
| CloudTargets.StartsClear | internal/controller/scalinggroup_controller.go:450-452 | a run of starts leaves recorded exactly what none of them saw ready, and adds nothing |
| Release.RemovedNamespaces | internal/controller/scalinggroup_controller.go:852-869 | returns, sorted and once each, exactly the namespaces managed or counted that are neither members nor already leaving |
| Release.ManagedNamespaces | internal/controller/scalinggroup_controller.go:813-822 | returns, sorted and once each, exactly the members and unreleased namespaces that do not conflict |
| Release.CountsOf | internal/controller/scalinggroup_controller.go:738-773 | a namespace's counts are gone if and only if the release let exactly that namespace go; otherwise they are as before |
| Release.LetGoOrQueued | internal/controller/scalinggroup_controller.go:738-773 | a departing namespace the group managed or holds counts for is restored, handed over or queued again |
| Release.UnownedLetGoOrQueued | internal/controller/scalinggroup_controller.go:758-763 | a departing namespace nobody else owns is let go or queued, tracked or not |
| Release.CountsQueued | internal/controller/scalinggroup_controller.go:738-773 | a departing namespace that still has counts afterwards is queued |
| Release.ForeignUntouched | internal/controller/scalinggroup_controller.go:741-745 | a namespace another group owns, that this one neither managed nor holds counts for, is neither let go nor queued |
| Release.Conflicting | internal/scaling/dependencies.go:127-135 | the conflicting namespaces are exactly the members another group owns |
| Group.ScalingGroup.constructor | api/v1/scalinggroup_types.go:179-204 | a new group has an empty status |
| Group.ScalingGroup.Reconcile | internal/controller/scalinggroup_controller.go:78-236 | the pass leaves exactly the status `Reconciled` describes, on every path: dry run, waiting for dependencies, stages |
| Group.ScalingGroup.Prepare | internal/controller/scalinggroup_controller.go:97-110 | selection, departures, release, managed list and restarted cloud targets after the first part of a pass |
| Group.ScalingGroup.SelectNamespaces | internal/controller/scalinggroup_controller.go:707-734 | records the current matches and returns those that neither match now nor are listed by name |
| Group.ScalingGroup.ReleaseDeparted | internal/controller/scalinggroup_controller.go:738-773 | the loop over departures leaves the counts and the queue of the ledger that `Release.CountsOf` and `Release.LetGoOrQueued` are about |
| Group.ScalingGroup.ReleaseExternalTargets | internal/controller/scalinggroup_controller.go:472-488 | starts, over a copy of the list it edits, every recorded target the sequence no longer names, and records what took |
| Group.ScalingGroup.ScaleExternalTarget | internal/controller/scalinggroup_controller.go:440-459 | records the call only if it took; reports ready only if it took, was seen ready and the check did not fail |
| Group.ScalingGroup.ReconcileTarget | internal/controller/scalinggroup_controller.go:412-435 | which answers count as ready, and what a target changes in counts and record; a failed engine call or unknown identifier changes nothing |
| Group.ScalingGroup.ScaleStage | internal/controller/scalinggroup_controller.go:167-185 | every target of a stage is scaled, ready or not, and lands in exactly one of the two lists, in order |
| Group.ScalingGroup.RunStages | internal/controller/scalinggroup_controller.go:144-213 | the loop stops at the first stage that holds back, and returns the stage passed to, its start, and the lists of the stages it ran |
| Group.ScalingGroup.ScaleStages | internal/controller/scalinggroup_controller.go:144-236 | the status once the stages are worked through: no stage state when settled |
| Group.ScalingGroup.UpdateStatusAndPhase | internal/controller/scalinggroup_controller.go:625-655 | phase from readiness and direction; the action time moves only with the phase or when it was never set |
| PassOutcomes.BlockedPassWaits | internal/controller/scalinggroup_controller.go:135-137 | a pass that wants up a group that is not, with dependencies missing, ends waiting for them; its only provider calls start targets no longer named, and members keep their counts |
| PassOutcomes.DryRunScalesNothing | internal/controller/scalinggroup_controller.go:539-571 | a dry run ends in DryRun without stage state and scales as little |
| PassOutcomes.FreePassMoves | internal/controller/scalinggroup_controller.go:135-144 | any other pass ends coming up or up when the group should be up, and going down or down when not: scaling down and groups that are up never wait |
| PassOutcomes.UpOnlyWhenFree | internal/controller/scalinggroup_controller.go:132-137 | over any run, a group that is not up starts coming up only in a pass that wants it up, whose dependencies are there and that is no dry run |
| PassOutcomes.ActedOnIff | internal/controller/scalinggroup_controller.go:149-213 | a stage is acted on if and only if each earlier one was left behind before, is there now, or has used up the minutes of the spec, or five, under skipOnTimeout |
| PassOutcomes.SettledIff | internal/controller/scalinggroup_controller.go:412-459 | a pass ends up or down if and only if every namespace's engine had its workloads there in the settled phase and every cloud call took and was seen ready without an error |
| PassOutcomes.SettledSince | internal/controller/scalinggroup_controller.go:643-655 | the pass that settles a group stamps the time it ended; one that finds it settled keeps the time |
| PassOutcomes.SettledTimeKept | internal/controller/scalinggroup_controller.go:217-222 | over any run, while a group stays up or down its stored time stays the one it settled at |
| PassOutcomes.SelectionRemembered | internal/controller/scalinggroup_controller.go:707-734 | a pass remembers what the selector matches now, and nothing without one |
| PassOutcomes.OwnMembersStaged | internal/controller/scalinggroup_controller.go:139-140 | the stages of a pass hold exactly the members no other group owns |
| PassOutcomes.PassFollowsSequence | internal/controller/scalinggroup_controller.go:402-408 | a pass scales up in the order of the sequence and down against it |
| Barrier.ListsAreExact | internal/controller/scalinggroup_controller.go:167-199 | a target is listed ready if and only if it was seen ready in a stage that ran, and skipped if and only if it was not ready in a stage the pass went past |
| Barrier.Settling | internal/controller/scalinggroup_controller.go:158-222 | a pass settles if and only if the ready count equals the total over all stages; it then ran every stage and stored no skipped namespace and index 0; managed is always ready plus blocking |
| Barrier.StageBarrier | internal/controller/scalinggroup_controller.go:144-213 | over any run, a pass acts on stage i only if some pass of the same transition and direction, waiting for no later stage, found each earlier stage fully ready or gave up on it under skipOnTimeout |
| Barrier.TargetBarrier | internal/controller/scalinggroup_controller.go:144-213 | while the transition builds the same stages, some pass of it that acted on the earlier stage, waiting for no later one, saw its target ready or gave up on the stage |
| Barrier.WhoLeft | internal/controller/scalinggroup_controller.go:149-157 | every stage below a stored index was left behind, by its own clock, in a stored pass of the same transition |
| Barrier.StageIndexMonotone | internal/controller/scalinggroup_controller.go:208-222 | over any run, from any status of a transition to any later one the stored index does not decrease |
| Barrier.StageIndexBounded | internal/controller/scalinggroup_controller.go:208-222 | it is at most the number of stages while the transition's passes build equally many |
| Barrier.PassedOverIff | internal/controller/scalinggroup_controller.go:162-211 | without timeouts, an unready stage the pass gets to is passed over if and only if it lies below the stored index |
| GroupRuns.ChangedStagesArePassedOver | internal/controller/scalinggroup_controller.go:162-211 | a run of two passes in which the stages change under index 1: the new first stage was never ready and the second is acted on |
| Barrier.SinceWhen | internal/controller/scalinggroup_controller.go:208-222 | over any run, the stored time of a transition is less than a second before the moment its current stage became current |
| Barrier.GivenUpOnlyAfterTimeout | internal/controller/scalinggroup_controller.go:151-166 | over any run, a stage is given up on only more than the minutes of the spec, or five where unset, less the second the stored time may have lost, after it became current |
| Barrier.EveryStageIsPassed | internal/controller/scalinggroup_controller.go:162-222 | with skipOnTimeout, one pass more than there are stages, spaced more than the timeout, settles the group or passes every stage |
| Conservation.RecordOfPass | internal/controller/scalinggroup_controller.go:97-222 | all a pass does to the record is replay the calls that took, restarts first |
| Conservation.PassConserves | internal/controller/scalinggroup_controller.go:625-671 | a pass keeps the stored record exact if its status write succeeds or each of its calls was moot for the record it found, and, as namespace names hold no colon, only then |
| Conservation.UnchangedIffMoot | internal/controller/scalinggroup_controller.go:440-459 | one-way calls leave the record as it was if and only if each stops a target recorded just so, or starts one not seen ready or not recorded |
| Conservation.PassIsOneWay | internal/controller/scalinggroup_controller.go:421-488 | the calls of a pass on one id all go one way and are about the same target |
| GroupRuns.FailedWriteLosesStop | internal/controller/scalinggroup_controller.go:440-459 | a run of one pass whose stop took and whose write failed: the target is down and not on record |
| Conservation.StoppedTargetsConserved | internal/controller/scalinggroup_controller.go:437-488 | over any run meeting that, the recorded targets are exactly those whose last stop that took has not been followed by a start seen ready, without repeats |
| Conservation.RecordHasNoRepeats | internal/controller/scalinggroup_controller.go:440-459 | over any run, whatever is stored, no target is recorded twice |
| Conservation.ScaledUpRecordsOnlyShadowed | internal/controller/scalinggroup_controller.go:421-435 | a group that ends ScaledUp still records a target its sequence names if and only if it was recorded and an earlier entry with its identifier shadows it |
| GroupRuns.ShadowedStaysRecorded | internal/controller/scalinggroup_controller.go:421-435 | a run of two passes that ends ScaledUp with a shadowed target on record |
| Conservation.RestartsExactly | internal/controller/scalinggroup_controller.go:472-488 | a pass starts again exactly the recorded targets that the spec no longer lists or no stage names; one stays recorded if and only if it is still named, or its start did not take or was not seen ready |
| Conservation.HeldBackKeepsTargets | internal/controller/scalinggroup_controller.go:124-137 | a dry run or a wait for dependencies leaves the targets its sequence names as recorded as they were |
| Conservation.ScaledDownRecordsAllNamed | internal/controller/scalinggroup_controller.go:421-459 | a settled scale-down has every cloud target its sequence names on record, as the spec describes it |
| Conservation.ScaledUpRecordsNothingNamed | internal/controller/scalinggroup_controller.go:632-641 | over any run, with unique identifiers a group stored as ScaledUp records no target its sequence names |
| Bookkeeping.Departures | internal/controller/scalinggroup_controller.go:97-102 | exactly what is no longer a member and was tracked or selected departs |
| Bookkeeping.ManagedNext | internal/controller/scalinggroup_controller.go:813-822 | managed afterwards is exactly the members no other group owns and what is still to be released |
| Bookkeeping.CountsTaken | internal/controller/scalinggroup_controller.go:573-600 | a namespace scaled once in a pass ends with exactly the counts the engine answered, or its old ones if the engine failed |
| Bookkeeping.UnscaledCounts | internal/controller/scalinggroup_controller.go:573-600 | the stages leave the counts of a namespace they do not scale as the release left them |
| Bookkeeping.NamespaceKept | internal/controller/scalinggroup_controller.go:97-110 | a tracked namespace stays tracked, or the pass restored it or handed it over, or it is a member another group owns now, whose counts are kept |
| Bookkeeping.CountsAccounted | internal/controller/scalinggroup_controller.go:738-822 | after a pass each recorded count belongs to a member or to a namespace queued for another try and managed |
| Bookkeeping.NoNamespaceIsLost | internal/controller/scalinggroup_controller.go:97-110 | over any run, a namespace that left the books was let go by a stored pass in between, or held no counts and was a member another group owned |
| Bookkeeping.HeldBackKeepsCounts | internal/controller/scalinggroup_controller.go:124-137 | a dry run or a wait for dependencies leaves the counts of all members alone |
| Announcements.TransitionLog.Changed | internal/controller/schedule_status.go:260-275 | what is announced and remembered for one object, and that other objects' memory is untouched |
| Announcements.TransitionLog.Forget | internal/controller/schedule_status.go:247-251 | forgets one object only |
| Announcements.AnnouncedIffSettledPhaseChanges | internal/controller/schedule_status.go:253-275 | the one remembered phase decides as the whole history would: announced if and only if the settled phase changes, the first reconcile excepted |
| Announcements.AnnouncementsAlternate | internal/controller/schedule_status.go:253-275 | announcements strictly alternate between up and down |
| Announcements.RunsAreContinuous | internal/controller/scalinggroup_controller.go:641-661 | the calls any run of the reconciler makes, from any takeover on, are the kind those two lemmas are about |
| Finalizer.DeletedGroup.Finalize | internal/controller/scalinggroup_controller.go:889-909 | before the deadline the finalizer goes if and only if the listing, every namespace to give back, every recorded target, the grant and the write succeeded; from ten minutes on if and only if the write did |
| Finalizer.DeletedGroup.ReleaseEverything | internal/controller/scalinggroup_controller.go:925-964 | reports a failure exactly when some owned namespace was not given back, some target did not come up, or the listing or the grant failed |
| Finalizer.DeletedGroup.GiveBackNamespaces | internal/controller/scalinggroup_controller.go:935-951 | tries every member and tracked namespace, skipping only conflicting ones |
| Finalizer.DeletedGroup.StartTargets | internal/controller/scalinggroup_controller.go:952-960 | starts every target of the copied list while the record it came from is edited |
| Finalizer.StartsEmpty | internal/controller/scalinggroup_controller.go:952-960 | starting the recorded targets in order and seeing each run empties the record |
| Finalizer.DroppedOnlyWhenReleased | internal/controller/scalinggroup_controller.go:889-964 | the finalizer is dropped only when every owned namespace was given back and the stopped targets have left the record, or ten minutes have passed |
| Finalizer.TrackedIsToRelease | internal/controller/scalinggroup_controller.go:935-936 | the namespaces to give back are exactly the members and what the group manages or holds counts for |
| Finalizer.GoneOnceReleased | internal/controller/scalinggroup_controller.go:889-909 | over any passes, the object is gone exactly once one of them succeeded in everything, or came after the deadline, and its update was written |
| Finalizer.GoneByPass41 | internal/controller/release.go:16-18 | with passes at least 15 seconds apart the object goes by the 41st, if that update is written |
| Finalizer.KeptThroughPass40 | internal/controller/release.go:74-76 | the bound is tight: passes exactly 15 seconds apart that fail keep it through the 40th |
| Reaper.DaysExactIff | internal/cleanup/cleanup.go:73-90 | a label of n days lasts n days if and only if n is at most 106751 |
| Reaper.DaysOverflow | internal/cleanup/cleanup.go:73-90 | a label of 213504 days lasts under half an hour |
| Reaper.Plan | internal/cleanup/cleanup.go:130-179 | every selected namespace that is not terminating once, each as its own entry, deletable ones first and soonest first |
| Reaper.NamespaceReaper.Run | internal/cleanup/cleanup.go:229-286 | a run leaves the cluster, log and trace of handling a plan entry by entry, stopping at the first failure |
| Reaper.NamespaceReaper.Treat | internal/cleanup/cleanup.go:254-283 | which of postponing, deleting, leaving, warning or nothing an entry gets, and what it does to the budget |
| Reaper.NamespaceReaper.DeletionBudget | internal/cleanup/cleanup.go:291-303 | twenty less the logged deletions of the last hour |
| Reaper.NamespaceReaper.SendWarning | internal/cleanup/cleanup.go:308-331 | stamps the warned expiry, and the postponed expiry with it, only when the warning went out |
| Reaper.NamespaceReaper.DeleteExpired | internal/cleanup/cleanup.go:335-355 | deletes and logs; a namespace already gone or replaced is neither logged nor a failure |
| Reaper.NamespaceReaper.Record | internal/cleanup/cleanup.go:395-423 | the log is the newest hundred deletions, newest first |
| Reaper.NamespaceReaper.Extend | internal/cleanup/cleanup.go:427-448 | stores the extended expiry and clears the warning, or refuses and changes nothing |
| Reaper.ReplanAfterExtend | internal/cleanup/cleanup.go:427-448 | replanning gives exactly the entry Extend returned, unwarned, whatever the time to live is then; its expiry is the extension after the old expiry, or after now if that has passed, less a fraction of a second, and no earlier than an expiry in whole seconds still ahead if and only if the extension is not negative |
| Reaper.SoonestDeletedFirst | internal/cleanup/cleanup.go:256-275 | no namespace left for later expires before one the same run deletes |
| ReaperOutcomes.PlanOrder | internal/cleanup/cleanup.go:162-178 | what may be deleted is planned before what may not, and each part soonest first |
| ReaperOutcomes.RipeAreDeleted | internal/cleanup/cleanup.go:251-275 | a run whose requests go through deletes only namespaces expired and, under a lead, stamped with that expiry: all of them if the budget is enough, and otherwise as many as are left of twenty |
| ReaperOutcomes.SoonestRipeFirst | internal/cleanup/cleanup.go:162-178 | of those, none left over expires before one deleted |
| ReaperOutcomes.WhatEachBecomes | internal/cleanup/cleanup.go:254-331 | what each namespace becomes in such a run: terminating, postponed to the lead from now, stamped with the expiry it keeps, or as it was |
| ReaperOutcomes.OutcomeAt | internal/cleanup/cleanup.go:335-355 | the same when some namespaces to delete are found gone, which still count against the budget |
| ReaperOutcomes.RunLogsDeletions | internal/cleanup/cleanup.go:335-355 | a run logs each deletion, as the namespace was, and nothing else |
| ReaperOutcomes.FailureStopsRun | internal/cleanup/cleanup.go:256-275 | the first warning or deletion that fails ends the run: neither its namespace nor any planned after is touched |
| ReaperOutcomes.ExtendExactly | internal/cleanup/cleanup.go:427-448 | an extension is made of exactly the namespaces the reaper may delete, moves the expiry and clears the stamp, and touches nothing else |
| ReaperRuns.CutKeepsRecent | internal/cleanup/cleanup.go:395-407 | cutting a newest-first log never drops a recent entry while the recent ones fit |
| ReaperRuns.RunKeepsLimit | internal/cleanup/cleanup.go:251-275 | throughout a run the log stays the newest hundred, newest first, and the budget at most what the limit leaves |
| ReaperRuns.AtMostTwentyAnHour | internal/cleanup/cleanup.go:251-303 | over any history of runs, restarts, extensions and outside changes at most twenty namespaces are deleted in any hour, although the log is cut |
| ReaperRuns.LogIsNewestHundred | internal/cleanup/cleanup.go:395-423 | over any history the log is the newest hundred of all deletions, newest first |
| ReaperHours.AtMostFortyAClosedHour | internal/cleanup/cleanup.go:291-303 | over any history, at most forty namespaces are deleted in an hour that includes both its ends |
| ReaperHours.FortyInAClosedHour | internal/cleanup/cleanup.go:291-303 | a history in which forty are: twenty at one instant and twenty exactly an hour later |
| ReaperWarnings.RunKeepsWarnings | internal/cleanup/cleanup.go:256-281 | through a run, each stamp on a namespace stands for a warning sent to that very object about that expiry, and each deletion for one of an earlier run |
| ReaperWarnings.EntryMeans | internal/cleanup/cleanup.go:130-192 | when a planned namespace may be deleted, when it expires and when it counts as warned, over label, extension, setting and schedule |
| ReaperWarnings.OnlyExpiredAreDeleted | internal/cleanup/cleanup.go:229-286 | a run deletes only selected namespaces that may go and have expired, under a positive lead only ones stamped with the passed expiry |
| ReaperWarnings.DueAreWarned | internal/cleanup/cleanup.go:256-281 | after a run without failures everyone whose warning time has come is deleted, or stamped with the expiry it then has |
| ReaperWarnings.OthersUntouched | internal/cleanup/cleanup.go:182-286 | a namespace that is protected, unselected or not yet due stays exactly as it is |
| ReaperWarnings.DeletedOnlyAfterWarning | internal/cleanup/cleanup.go:256-281 | over any history, each namespace deleted under a positive lead was warned about in an earlier run for exactly the expiry that has passed |
| ReaperWarnings.RunKeepsNotice | internal/cleanup/cleanup.go:308-331 | through a run, whoever was warned late expires no earlier than announced |
| ReaperWarnings.LateWarningGivesNotice | internal/cleanup/cleanup.go:256-331 | over any history without negative extensions, a namespace that expired unwarned gets the lead less under a second, whatever time to live, label or other extension changes come between |
| ReaperExtensions.NoticeHoldsIff | internal/cleanup/cleanup.go:427-448 | late warnings give their notice in every history whose extensions are by a given amount if and only if that amount is not negative |
| ReaperExtensions.KeepsBindingIff | internal/cleanup/cleanup.go:427-448 | an extension keeps every late warning binding, in every state, if and only if it is not negative |
| ReaperExtensions.DaysKeepNoticeIff | internal/cleanup/cleanup.go:79-83 | for an extension by n days: if and only if the 64-bit duration came out non-negative, as up to 106751 days and not for 106752 |
| ReaperExtensions.NoticeTakenBack | internal/api/namespace_ttl.go:165-166 | an extension by 213503 days is accepted and negative, and a history with it deletes a namespace under 26 minutes after promising it a day |
| Sampling.Sampler.Reconcile | internal/controller/namespacefinops_controller.go:84-171 | what a reconcile does to record, buffer and sample time of one namespace, and that the others are untouched |
| Sampling.SpacedAcrossRestarts | internal/controller/namespacefinops_controller.go:227-234 | no sample on the current record comes within 54 seconds of an earlier written one, whatever restarts lie between |
| Sampling.Sampler.AddSample | internal/controller/namespacefinops_controller.go:237-249 | appends to the buffer, which keeps its newest sixty |
| Sampling.Sampler.Flush | internal/controller/namespacefinops_controller.go:143-170 | an accepted write takes the whole buffer, in whole seconds, and empties it; a failed one leaves record and buffer as they were |
| Sampling.Sampler.Forget | internal/controller/namespacefinops_controller.go:258-263 | is to one namespace what a new process is to all, and nothing to the others |
| Sampling.BatchingKeepsHistory | internal/controller/namespacefinops_controller.go:143-170 | under any failed writes and restarts, record and buffer show the newest sixty of all written points followed by those sampled since |
| Sampling.BatchingRefinesWriteEach | internal/controller/namespacefinops_controller.go:237-256 | within one process they show the same sixty points as a record written at every sample |
| Sampling.WriteEachIsLast | internal/controller/namespacefinops_controller.go:143-170 | writing every sample keeps the newest sixty of the initial history followed by every sample |
| Sampling.DueIsWritten | internal/controller/namespacefinops_controller.go:143-170 | a sample a flush interval after the last write, if accepted, leaves an empty buffer and a record equal to one written at every sample |
| Sampling.ReconcileExactly | internal/controller/namespacefinops_controller.go:84-171 | a reconcile samples exactly when usage is there and the last sample is 55 seconds old or missing, and writes exactly when it sampled, a write is due and accepted and the record read is current |
| Sampling.RecordChangesIff | internal/controller/namespacefinops_controller.go:143-170 | over events, the stored record changes if and only if that is so |
| Sampling.WritesSpaced | internal/controller/namespacefinops_controller.go:150-156 | between two writes with unchanged condition and insights lies at least the flush interval less five seconds |
| Sampling.LastIsSixty | internal/controller/namespacefinops_controller.go:237-249 | the newest sixty: at most sixty points, all if there are no more, always from the end |
| Sampling.SamplesSpaced | internal/controller/namespacefinops_controller.go:84-110 | within one process two samples of a namespace are at least 55 seconds apart, whatever outdated record is read |
| VersionedStore.ApiServer.Create | internal/auth/session.go:127-167 | a create fails if and only if the object exists |
| VersionedStore.ApiServer.Update | internal/auth/session.go:127-167 | an update fails if and only if the object is not at the version read |
| SecretRace.SecretLoader.Read | internal/auth/session.go:127-141 | returns valid data, or generates some; any other failure ends the call |
| SecretRace.SecretLoader.Write | internal/auth/session.go:142-166 | repairs an unusable Secret at the version read, or creates a missing one |
| SecretRace.SecretLoader.Reread | internal/auth/session.go:156-165 | after a lost create, returns what the winner stored |
| SecretRace.UsableForGood | internal/auth/session.go:127-167 | a usable Secret is never written again |
| SecretRace.SecretAgreement | internal/auth/session.go:127-167 | for any replicas and interleaving, whoever returns successfully returns valid data that the store holds from then on |
| SecretRace.ReplicasAgree | internal/auth/session.go:127-167 | any two that return, return the same data |
| SecretRace.NobodyFailsIff | internal/auth/session.go:127-167 | the race alone fails no replica, in any run whose calls go through, if and only if the Secret is missing or usable at first |
| SecretRace.RaceFailsNobody | internal/auth/session.go:150-166 | in such runs from a missing or usable Secret replicas only ever create it or find it |
| SecretRace.RepairLoserFails | internal/auth/session.go:142-149 | a run in which two replicas repair the same unusable Secret and the second fails, whatever the Secret held |
| SecretRace.UsableIsReturned | internal/auth/session.go:130-133 | a replica that reads a usable Secret returns what the store holds and leaves it alone |
| SecretRace.EachCallProgresses | internal/auth/session.go:127-167 | each call brings a replica nearer its end, so it ends after at most three |
| SecretRace.OwnFailureEnds | internal/auth/session.go:134-166 | a call that fails by itself ends the attempt and leaves the Secret alone |
| AiUsage.AddUsage | internal/api/ai_usage.go:82-106 | the counters added and the months pruned to those with fewer than twelve later ones |
| AiUsage.DropOldest | internal/api/ai_usage.go:98-106 | the loop deleting the oldest keys leaves exactly the twelve latest |
| AiUsage.PruneAsYouGo | internal/api/ai_usage.go:98-106 | pruning at every add keeps the same months as pruning once at the end |
| AiUsage.ExactNext | internal/api/ai_usage.go:68-112 | one add keeps the months the latest ever recorded and each counter the sum of its adds |
| AiUsage.UsageWriter.Get | internal/api/ai_usage.go:71-77 | the read an attempt starts with |
| AiUsage.UsageWriter.Write | internal/api/ai_usage.go:68-112 | creates or updates; a changed version is retried up to five attempts, anything else fails |
| AiUsage.UsageIsExact | internal/api/ai_usage.go:68-112 | for any replicas and interleaving from no record, the stored months are the twelve latest ever recorded and each counter the sum of all successful adds, as a 64-bit integer |
| AiUsage.PrunedForGood | internal/api/ai_usage.go:98-106 | a pruned month never returns |
| AiUsage.OwnMonthKeptIff | internal/api/ai_usage.go:97-106 | an add keeps its own month if and only if fewer than twelve recorded months are later |
| AiUsage.FewMonthsAllKept | internal/api/ai_usage.go:97-106 | up to twelve months are all kept, whatever their age |
| AiUsage.OldMonthStays | internal/api/ai_usage.go:67-106 | a month seven years old is kept |
| AiUsage.FourWritesFailNoAdd | internal/api/ai_usage.go:71-111 | from an existing record, an add none of whose calls fails by itself does not fail while at most four writes land since it began |
| AiUsage.FiveWritesCanFail | internal/api/ai_usage.go:71-111 | a run in which five writes make such an add fail |
| AiUsage.SecondCreateFails | internal/api/ai_usage.go:107-109 | a run of two first adds at once, the second of which fails without another try |
| AiUsage.OwnFailureEnds | internal/api/ai_usage.go:71-111 | a call that fails by itself ends the add uncounted: only a changed version is tried again |
| RiskAlerts.RiskAlerter.RunCheck | internal/api/risk_alerts.go:59-137 | what a check announces and stores, on every path: disabled, rejected post, failed write |
| RiskAlerts.RiskAlerter.KeepUnseen | internal/api/risk_alerts.go:141-147 | adds exactly the open risks of the namespace, as open and unseen |
| RiskAlerts.RiskAlerter.Fresh | internal/api/risk_alerts.go:151-162 | exactly the seen risks never announced or not within a day |
| RiskAlerts.AnnouncementsADayApart | internal/api/risk_alerts.go:83-162 | over any run, two announcements of one risk are at least 24 hours apart once the first is written, despite pruning |
| RiskAlerts.AnnouncedIffQuietForADay | internal/api/risk_alerts.go:83-162 | over any run, a check announces exactly the open risks it has seen that no written check announced within 24 hours, if the post is not rejected |
| RiskAlerts.OpenExactly | internal/api/risk_alerts.go:83-106 | a risk is open if and only if an assessment showed it, or it was open and its namespace could not be assessed |
| RiskAlerts.OpenAsTold | internal/api/risk_alerts.go:83-106 | an open risk says what a finding of this check says, or is as the last check left it |
| RiskAlerts.DisabledForgetsOpen | internal/api/risk_alerts.go:72-78 | turning alerts off announces nothing, forgets the open risks and keeps when each was announced |
| RiskAlerts.OldAnnouncementsForgotten | internal/api/risk_alerts.go:127-131 | after a written check the memory holds only open risks and ones announced within a week |
| RiskAlerts.UnsavedIsRepeated | internal/api/risk_alerts.go:83-137 | over any run, an announcement not written is made again by the next check that sees the risk, however soon |
| RiskAlerts.AnnouncedTwice | internal/api/risk_alerts.go:117-135 | a run of two checks a minute apart that both announce the same risk |
| RiskAlerts.SinceFirstCheck | internal/api/risk_alerts.go:83-137 | over any run, an open risk's start is the first check of its unbroken open period |
| RiskAlerts.UnassessedKept | internal/api/risk_alerts.go:141-147 | a namespace that could not be assessed keeps its open risks, as unseen |
| RiskAlerts.UnassessedNotAnnounced | internal/api/risk_alerts.go:141-162 | none of those is announced |
| Deliveries.RecentDeliveries.First | internal/api/webex_handlers.go:98-122 | the answer, and what is dropped to make room: expired IDs first, and live ones only when a thousand are live, down to 999 |
| Deliveries.AtMostAThousand | internal/api/webex_handlers.go:84-122 | the memory never holds more than a thousand IDs, under any flood |
| Deliveries.AgreementKeptIff | internal/api/webex_handlers.go:98-122 | recording a new ID keeps the memory in agreement with an unbounded one if and only if fewer than a thousand IDs are live |
| Deliveries.FloodForgets | internal/api/webex_handlers.go:98-122 | a new ID while a thousand are live makes some live ID be answered as new when delivered again at that instant |
| Deliveries.AnswersAsUnbounded | internal/api/webex_handlers.go:98-122 | while that holds, every delivery is answered as an unbounded one-hour log would |
| Deliveries.NewIffNotWithinHour | internal/api/webex_handlers.go:98-122 | while that holds, a delivery is new if and only if no delivery of its ID within the hour before it was |

## Left out

- The scaling engine, timetables, group planning and idle detection: their results are inputs of a pass.
- What restoring or handing over a namespace does inside it (hibernated services, GitOps, routes, the dry-run
  shortcut of `releaseNamespace`): only whether it succeeded.
- GitOps pausing, the sleep page, recorded savings and wake-up times, conditions, events, telemetry and message texts.
- The status a finalizing pass edits is not kept between passes: its update writes the object and not the status.
- A failed write of the deletion log, which the reaper only reports: `Reaper.NamespaceReaper.Record` always succeeds.
- Parsing of Go durations, label selectors and JSON, and RFC 3339 years beyond 9999.
- The order of announced risks and how an alert is posted.
- The other parts of a sampled namespace's status, such as the metrics condition: only whether it changed.
- HTTP handlers, settings, sign-in, pricing, right-sizing, dashboards and the assistant: they add no state machine.
- Finalizer.GoneByPass41: assumes the update of that pass is written; a group whose updates always fail stays.
- Barrier.EveryStageIsPassed: assumes the group is not put into dry run or held by dependencies in between, since
  either one leaves the transition.
