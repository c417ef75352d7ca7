# nomad-ops reconciliation core in Dafny

nomad-ops is a GitOps operator for HashiCorp Nomad. It watches git sources. For each source it fetches the
desired Nomad jobs, plans each job against the cluster, and registers jobs whose plan shows a change that
matters. It also deletes jobs that the source no longer contains and publishes a status per source. It
notifies Slack or a webhook about failures, recoveries and updates. This project models the decision logic
of that operator as pure Dafny functions over immutable datatypes, and proves what the code promises about
them.

The modules follow the program's structure:

- `Nomad` (nomad.dfy) is the Nomad job tree and plan diff.
- `Domain` and `Application` (domain.dfy, application.dfy) are the source, status, team and change-summary
  records.
- `Scaling` (scaling.dfy) covers the scaling lookups and the autoscaler copy-back.
- `ChangeDecision` (change_decision.dfy) is `hasUpdate`.
- `NomadClient` (nomad_client.dfy) covers option precedence, the `UpdateJob` gate and the ownership filter.
- `SyncStatus` (source_status.dfy) is `DetermineSyncStatus`.
- `Reconciler` (reconciler.dfy) is `OnReconcile`.
- `Watcher` (watcher.dfy) covers the watch registry, request routing, overrides and one loop iteration.
- `Manager` (manager.dfy) covers seeding and the add and delete hooks.
- `Teams` (team.dfy) covers team membership.
- `Errors` (errors.dfy) covers the temporary-error wrapper and `errors.Join`.
- `Notifier` (notifier.dfy) covers composer fan-out, Slack block layout and the webhook rules.
- `Middlewares` (middlewares.dfy) covers the HTTP middlewares.
- `DiffCleaning` (diff_cleaning.dfy) is the frontend's JSON diff-cleaning pipeline.
- `RealtimeStore` (realtime_store.dfy) is the frontend's realtime collection store.
- `Wrappers` and `Text` are shared helpers:
  - `Option` and `Result`;
  - `Enumerates`, meaning "this order lists exactly these keys, each once";
  - string splitting, joining and search.

Modelling conventions:

- **Go map iteration.** Go visits map entries in an unspecified order. Every loop over a map takes an explicit
  `order: seq<string>`. Properties are proved for every order that enumerates the map's keys.
- **Collaborators.** These are parameters or values, and every one of them may fail:
  - the Nomad API results;
  - `strconv.Atoi`, as a partial parse;
  - the git URL parser;
  - HTTP responses;
  - template execution;
  - the clock.
- **Go errors.** A Go `error` is an `Option<Error>`, where `None` is nil. A call that the code makes and whose
  error it ignores is recorded as an effect, so its absence or presence can be stated.

## Model

| member | source | states |
|---|---|---|
| `Scaling.GroupScalingIn` | backend/interfaces/nomadcluster/client.go:140-150 | the group lookup is true iff some task group with that name has an enabled scaling block |
| `Scaling.HasGroupScaling` | backend/interfaces/nomadcluster/client.go:140-150 | hasGroupScaling holds iff the job has a task group of that name whose Scaling is present and enabled |
| `Scaling.PolicyIn` | backend/interfaces/nomadcluster/client.go:152-170 | the policy scan is true iff some policy of the task has the requested type |
| `Scaling.TaskScalingIn` | backend/interfaces/nomadcluster/client.go:152-170 | the task scan is true iff a task of that name carries a policy of that type |
| `Scaling.GroupTaskScalingIn` | backend/interfaces/nomadcluster/client.go:152-170 | the nested group and task scan is true iff the named group holds the named task with that policy type |
| `Scaling.HasTaskScaling` | backend/interfaces/nomadcluster/client.go:152-170 | hasTaskScaling holds iff the named task of the named group has a scaling policy of the given type |
| `Scaling.OldsInFields` | backend/interfaces/nomadcluster/client.go:198-212 | the Old values collected are exactly those of fields with the given name, and with type Edited where the loop requires it |
| `Scaling.OldsInResources` | backend/interfaces/nomadcluster/client.go:193-213 | the Old values collected come exactly from the Edited fields of objects named Resources |
| `Scaling.OldsInTaskDiffs` | backend/interfaces/nomadcluster/client.go:188-214 | the Old values collected come exactly from the Resources objects of task diffs with the task's name |
| `Scaling.ResourceOlds` | backend/interfaces/nomadcluster/client.go:183-215 | the Old values collected come exactly from the matching task diffs of group diffs with the group's name |
| `Scaling.CountOlds` | backend/interfaces/nomadcluster/client.go:262-280 | the Old values collected are exactly those of the Count fields, of any type, in group diffs with the group's name |
| `Scaling.AssignParsed` | backend/interfaces/nomadcluster/client.go:206-211 | the value after the loop is the last Old value that parses as an integer, and is unchanged when none parses |
| `Scaling.CopyTask` | backend/interfaces/nomadcluster/client.go:179-253 | a task's CPU is copied back only under a vertical_cpu policy, and its MemoryMB only under vertical_mem, each from the Edited Old values of the CPU and Memory fields respectively; everything else of the task is unchanged |
| `Scaling.CopyGroup` | backend/interfaces/nomadcluster/client.go:177-281 | a group's Count is copied back only when group scaling is enabled, from the Count fields; every task is copied back by CopyTask, and nothing else of the group changes |
| `Scaling.CopyExistingAutoScalerChanges` | backend/interfaces/nomadcluster/client.go:172-282 | the copy-back changes nothing outside the task groups, keeps their number, and copies every group back as CopyGroup states |
| `Scaling.CopyBackKeepsScaling` | backend/interfaces/nomadcluster/client.go:177-180 | the copy-back never changes what hasGroupScaling or hasTaskScaling answer, so checking the job while it is being changed gives the same answers as checking it before |
| `ChangeDecision.OnlyCpuAndMemory` | backend/interfaces/nomadcluster/client.go:341-351 | the field check holds iff every field of the Resources object is named CPU or MemoryMB, or has type None |
| `ChangeDecision.ScanTasks` | backend/interfaces/nomadcluster/client.go:327-361 | after the task loop, hasChanges holds iff some task diff has fields or objects; the autoscaler-only flag survives iff no task diff has a field change and each one's objects are at most a single Resources object with only CPU, MemoryMB or None-typed fields, on a task with a vertical_cpu or vertical_mem policy |
| `ChangeDecision.ScanGroups` | backend/interfaces/nomadcluster/client.go:301-362 | after the task-group loop, hasChanges holds iff some group diff has fields, a real object change or a changed task; the autoscaler-only flag survives iff every group diff has at most a lone Count field on a group with scaling enabled, no object other than one bare Scaling object, and only autoscaler-only task changes |
| `ChangeDecision.HasUpdate` | backend/interfaces/nomadcluster/client.go:284-397 | hasUpdate holds iff top-level objects changed, or else something changed and the change matters. Something changed means some task group changed, or there are top-level fields that are more than a lone commit or force-restart stamp (with a flag set, any top-level field). The change matters when restart or force is set or some group change is not autoscaler-owned |
| `ChangeDecision.TopLevelObjectsAlwaysUpdate` | backend/interfaces/nomadcluster/client.go:293-296 | a diff with top-level objects is an update whatever restart and force are |
| `ChangeDecision.TopFieldsNeedAFlag` | backend/interfaces/nomadcluster/client.go:364-396 | without objects and task groups, hasUpdate holds iff there are top-level fields and restart or force is set |
| `ChangeDecision.EmptyDiffIsNoUpdate` | backend/interfaces/nomadcluster/client.go:377-396 | an empty diff is no update, whatever the flags |
| `ChangeDecision.FlagsAreMonotone` | backend/interfaces/nomadcluster/client.go:377-396 | setting restart or force never turns an update into no update |
| `ChangeDecision.CountOnlyChange` | backend/interfaces/nomadcluster/client.go:302-325 | a lone Count change in a group is an update iff the group has no enabled scaling |
| `ChangeDecision.BareScalingObjectIsNoChange` | backend/interfaces/nomadcluster/client.go:302-325 | a lone Scaling object without nested fields or objects is no update, whatever the flags |
| `ChangeDecision.TaskFieldChangeIsUpdate` | backend/interfaces/nomadcluster/client.go:327-340 | any task-level field change makes the diff an update |
| `ChangeDecision.TaskObjectChange` | backend/interfaces/nomadcluster/client.go:327-361 | task objects alone are no update iff they are exactly one Resources object with only CPU, MemoryMB or None-typed fields, and the task has a vertical_cpu or vertical_mem policy |
| `NomadClient.ResolveOptions` | backend/interfaces/nomadcluster/client.go:410-450 | namespace and region are each the source's value when set, else the job's value when set, else unset; the query and write options are the same function |
| `NomadClient.NamespaceUnsetIff` | backend/interfaces/nomadcluster/client.go:410-450 | the resolved namespace is empty iff both the source's and the job's namespace are empty |
| `NomadClient.OptionsDependOnlyOnPlacement` | backend/interfaces/nomadcluster/client.go:410-450 | the options depend on the job only through its namespace and region |
| `NomadClient.StampMeta` | backend/interfaces/nomadcluster/client.go:475-490 | the meta gains nomadops, nomadopssrcurl, nomadopssrcid and nomadopssrccommit always, and nomadopsforcerestart exactly when restarting; every other key keeps its value |
| `NomadClient.UpdateJob` | backend/interfaces/nomadcluster/client.go:452-545 | CreateNamespace with an empty namespace fails before any API call; the stamped job is planned; a decision is reached iff the namespace, plan and deployment lookup succeed, where a "not found" deployment error is tolerated; the job registers iff hasUpdate holds and the source is not paused; Updated equals hasUpdate and Created is never set; the caller's job comes back as the job the decision was taken on |
| `NomadClient.UpdateJobLeavesJobStamped` | backend/interfaces/nomadcluster/client.go:475-499 | after a successful call the caller's job differs from the one handed in only in its metadata and task groups: the metadata is stamped with the source ID, and the task groups carry the autoscaler counts copied back from the cluster |
| `NomadClient.Conclude` | backend/interfaces/nomadcluster/client.go:516-544 | after the decision, registration happens iff there is an update and the source is not paused; the result fails only on a failed registration and otherwise reports the decision and the deployment status |
| `NomadClient.OwnedNamesSnoc` | backend/interfaces/nomadcluster/client.go:581-590 | the owned names of a listing are those of its prefix plus the last stub when that stub carries the source's ID |
| `NomadClient.OwnedJobs` | backend/interfaces/nomadcluster/client.go:581-604 | a successful cluster state holds exactly the names of the listed jobs whose nomadopssrcid is the source's ID |
| `NomadClient.OwnedJobsFailure` | backend/interfaces/nomadcluster/client.go:592-599 | the cluster state fails iff the Info call for some owned job fails |
| `NomadClient.OwnedJobsFetched` | backend/interfaces/nomadcluster/client.go:596-603 | every entry of the cluster state is the Info answer for an owned listed job of that name |
| `NomadClient.GetCurrentClusterState` | backend/interfaces/nomadcluster/client.go:562-607 | a failed listing is returned as is; otherwise the result is the ownership-filtered state |
| `NomadClient.ForeignJobsAreIgnored` | backend/interfaces/nomadcluster/client.go:584-590 | a job name that no listed job with the source's ID carries never enters the cluster state |
| `NomadClient.RegisteredJobsAreOwned` | backend/interfaces/nomadcluster/client.go:480-491 | every job UpdateJob registers carries the source's ID in its meta, so the next GetCurrentClusterState treats it as owned |
| `SyncStatus.ScanJobs` | backend/domain/source_status.go:35-46 | the scan is pending iff some visited job is running; with a failed job the status is syncedwitherror and the message names a failed job; otherwise the status is unchanged, a message already set is kept, and else the message names a running job, if any |
| `SyncStatus.ScanJobsNamesLastFailure` | backend/domain/source_status.go:41-44 | with a failed job, the message names the last failed job in the visiting order, since each failure overwrites it |
| `SyncStatus.ScanJobsNamesFirstPending` | backend/domain/source_status.go:35-40 | with no failed job and no message yet, the message names the first running job in the visiting order, since a later one does not overwrite it |
| `SyncStatus.DetermineSyncStatus` | backend/domain/source_status.go:31-52 | the result is true iff some job is running; the status becomes syncedwitherror iff some job failed, and is otherwise unchanged; the message is unchanged when no job is running or failed; jobs and both times are never modified |
| `SyncStatus.StatusIsIdempotent` | backend/domain/source_status.go:31-52 | status and result do not depend on the iteration order, and a second application gives the same status and result |
| `SyncStatus.SameOrderIsIdempotent` | backend/domain/source_status.go:31-52 | with the same iteration order a second application leaves the record exactly as it is |
| `SyncStatus.ScanIgnoresStatus` | backend/domain/source_status.go:35-46 | the scan's pending flag and message do not depend on the incoming status |
| `Reconciler.StrPtrToStr` | backend/application/reconciler.go:288-293 | a nil string pointer reads as "" and any other as its value |
| `Reconciler.IntPtrToInt` | backend/application/reconciler.go:295-300 | a nil int pointer reads as 0 and any other as its value |
| `Reconciler.ToTimePtr` | backend/application/reconciler.go:281-286 | the result is nil iff the time is the zero time, and otherwise points to that time |
| `Reconciler.KeyedBy` | backend/application/reconciler.go:161-179 | a map built by a loop over a slice has exactly the slice's keys, and each value comes from an entry with that key |
| `Reconciler.JobStatusOf` | backend/application/reconciler.go:151-180 | a job's status entry has its type and the deployment status UpdateJob reported, and is "unknown" with an empty description unless a live job exists, whose status and description it then carries |
| `Reconciler.JobStatusGroups` | backend/application/reconciler.go:161-180 | a job's status entry has one group per task group name, each with that group's Count, read as 0 when nil |
| `Reconciler.DeleteOne` | backend/application/reconciler.go:99-140 | a non-candidate is skipped; on a paused source a candidate is only recorded; otherwise it is recorded and deleted, and a failed deletion aborts, while a successful one sets the update time and saves a Deleted event |
| `Reconciler.DeletionPass` | backend/application/reconciler.go:98-141 | the deletion loop only ever appends to the recorded calls |
| `Reconciler.DeletionPassEffects` | backend/application/reconciler.go:98-141 | the deletion loop only deletes candidates and saves their events, and does neither on a paused source |
| `Reconciler.DeletionPassAborts` | backend/application/reconciler.go:120-123 | the deletion loop aborts iff a deletion it attempts fails |
| `Reconciler.DeletionPassChanges` | backend/application/reconciler.go:98-112 | a completed deletion loop records in Delete exactly the live jobs that are absent from the desired state, not periodic-enabled, and have a non-empty parent ID |
| `Reconciler.DeletionPassStatus` | backend/application/reconciler.go:114-126 | a completed deletion loop changes only the update time of the status, and sets it iff it deleted a job, which never happens on a paused source |
| `Reconciler.DeletionPassDeletes` | backend/application/reconciler.go:119-123 | a completed deletion loop of an unpaused source called DeleteJob for every candidate |
| `Reconciler.UpdateOne` | backend/application/reconciler.go:143-276 | a failing UpdateJob aborts; otherwise the status entry of the job as UpdateJob left it is filed under that job's name, and a creation or update of that job is recorded with its events and notice |
| `Reconciler.UpdatePass` | backend/application/reconciler.go:143-276 | the update loop only ever appends to the recorded calls |
| `Reconciler.UpdatePassEffects` | backend/application/reconciler.go:143-276 | the update loop calls UpdateJob once per visited desired job, and saves events and notifies only for jobs reported created or updated, never on a paused source |
| `Reconciler.UpdatePassAborts` | backend/application/reconciler.go:145-149 | the update loop aborts iff UpdateJob fails for a desired job it visits |
| `Reconciler.UpdatePassChanges` | backend/application/reconciler.go:186-221 | a completed update loop puts in Create exactly the jobs reported created, and in Update those reported updated (except on a paused source those also created), each as UpdateJob left it: stamped and with the autoscaler counts copied back |
| `Reconciler.UpdatePassStatusRest` | backend/application/reconciler.go:143-276 | a completed update loop changes only the job entries and the update time of the status |
| `Reconciler.UpdatePassStatusKeys` | backend/application/reconciler.go:182 | a completed update loop adds one status entry per desired job, keyed by the job's name |
| `Reconciler.UpdatePassStatusTime` | backend/application/reconciler.go:186-192 | a completed update loop sets the update time iff some job was reported created or updated, whether paused or not |
| `Reconciler.UpdatePassStatusEntries` | backend/application/reconciler.go:151-182 | after a completed update loop every status entry is one it started with or the entry of a visited desired job, named and counted from the job as UpdateJob left it |
| `Reconciler.UpdatePassCalls` | backend/application/reconciler.go:143-149 | a completed update loop called UpdateJob for every visited desired job |
| `Reconciler.UpdatePassNotifies` | backend/application/reconciler.go:215-274 | a completed update loop of an unpaused source sent the success notice of every job reported updated |
| `Reconciler.DeletionPassAbortsLast` | backend/application/reconciler.go:120-123 | an aborted deletion loop ends with the DeleteJob call whose error it returns |
| `Reconciler.UpdatePassAbortsLast` | backend/application/reconciler.go:145-149 | an aborted update loop ends with the UpdateJob call whose error it returns |
| `Reconciler.OnReconcile` | backend/application/reconciler.go:78-83 | a failed GetCurrentClusterState is returned at once, before any other call |
| `Reconciler.ReconcileFails` | backend/application/reconciler.go:73-279 | a reconciliation fails iff GetCurrentClusterState, a DeleteJob of an unpaused source or an UpdateJob fails, and then it returns that call's error with no status or summary |
| `Reconciler.ReconcileFailsOnLastCall` | backend/application/reconciler.go:73-279 | a reconciliation that fails after the cluster state was read stops at the failing DeleteJob or UpdateJob call: that call is the last one made, and its error is the one returned |
| `Reconciler.ReconcileChanges` | backend/application/reconciler.go:85-221 | a successful summary is a dry run iff the source is paused; Delete holds exactly the deletion candidates, Create the jobs reported created, and Update those reported updated except on a paused source those also created, each as UpdateJob left it |
| `Reconciler.ChangeKeys` | backend/application/reconciler.go:98-221 | Delete's keys are live and not desired, Create's and Update's are desired, and on a paused source a job reported both created and updated is only in Create |
| `Reconciler.ReconcileStatus` | backend/application/reconciler.go:92-182 | a successful status is synced, checked at the reconciliation time, without a message, with one entry per desired job keyed by the name of the job as UpdateJob left it, each as JobStatusOf and JobStatusGroups state for that job |
| `Reconciler.ReconcileUpdateTime` | backend/application/reconciler.go:114-192 | the update time is set iff the reconciliation deleted a job on an unpaused source, or some job was reported created or updated, even on a paused source |
| `Reconciler.ReconcileEffects` | backend/application/reconciler.go:98-276 | every call after the cluster-state read belongs to the deletion loop or the update loop as those lemmas state |
| `Reconciler.PausedReconcileOnlyPlans` | backend/application/reconciler.go:114-222 | on a paused source the only calls are UpdateJob calls: no deletion, no event and no notification |
| `Reconciler.NotificationsAreForUpdates` | backend/application/reconciler.go:215-274 | every notification is the success notice of a desired job that UpdateJob reported updated; creations alone never notify |
| `Reconciler.ReconcileCalls` | backend/application/reconciler.go:98-276 | a successful reconciliation called UpdateJob for every desired job, and on an unpaused source deleted every candidate and notified every update |
| `Watcher.WatchSource` | backend/application/watcher.go:164-215 | watching a registered ID returns nil and changes nothing; watching a new ID adds exactly that key and publishes the init status "Waiting on first sync" |
| `Watcher.StopSourceWatch` | backend/application/watcher.go:507-519 | stopping removes exactly the given ID, keeps every other entry, and returns nil, also for an unknown ID |
| `Watcher.WatchSourceIsIdempotent` | backend/application/watcher.go:167-171 | watching a source twice is watching it once, and the second call publishes nothing |
| `Watcher.StopUndoesWatch` | backend/application/watcher.go:507-519 | stopping a watch just started restores the registry, and stopping an unknown ID changes nothing |
| `Watcher.SyncSourceByID` | backend/application/watcher.go:83-96 | an unregistered ID gives ErrNotFound and delivers nothing; otherwise exactly one sync request goes to that loop and its hand-over result is returned |
| `Watcher.PauseSourceByID` | backend/application/watcher.go:98-111 | an unregistered ID gives ErrNotFound and delivers nothing; otherwise exactly one pause request goes to that loop and its hand-over result is returned |
| `Watcher.Call` | backend/application/watcher.go:84-136 | a call (a by-ID sync or pause, SyncSource, watch or stop) blocks iff the mutex is held; a call that returns leaves the registry as the operation does, and leaves the mutex held iff, as written, it is a by-ID call for an unregistered ID |
| `Watcher.Returned` | backend/application/watcher.go:84-104 | calls issued in turn by one caller: a held mutex blocks the first; with every branch releasing it all return; as written exactly the calls up to the first one that leaves the mutex held return |
| `Watcher.CompletedAsWritten` | backend/application/watcher.go:84-88 | as written, when not every call returns, the last call that returns is the first one that met an unregistered ID in a by-ID call, and every call before it found its ID |
| `Watcher.UnknownIDBlocksTheWatcher` | backend/application/watcher.go:84-115 | after a by-ID call for an unregistered ID, the next call on the watcher never returns, a push's SyncSource included |
| `Watcher.Completed` | backend/application/watcher.go:84-89 | when every branch releases the mutex, the mutex is free before each call, so every call of any sequence returns |
| `Watcher.CompletedAgrees` | backend/application/watcher.go:84-104 | the code as written and the corrected code agree exactly on call sequences where no by-ID call before the last meets an unregistered ID |
| `Watcher.Targets` | backend/application/watcher.go:117-135 | the targets are registered sources on the branch whose parsed URL path is repo + ".git", and every such source in the iteration order is targeted |
| `Watcher.DeliverAll` | backend/application/watcher.go:140-146 | requests go to the targets in order and stop at the first failed hand-over; the result is nil iff every hand-over succeeded, and otherwise is the error of the last one attempted |
| `Watcher.SyncSource` | backend/application/watcher.go:113-147 | no target gives ErrNotFound with nothing delivered; otherwise the targets receive sync requests as DeliverAll states |
| `Watcher.SyncSourceRouting` | backend/application/watcher.go:113-147 | ErrNotFound comes back iff no registered source is targeted; nil comes back iff some source is targeted and every hand-over succeeds; every delivery goes to a targeted source |
| `Watcher.ApplyOverrides` | backend/application/watcher.go:149-162 | overrides keep the jobs' keys and git info; datacenters become the comma-split DataCenter when it is set, the namespace becomes the source's when set, and the region and everything else are untouched |
| `Watcher.OverridesAreIdempotent` | backend/application/watcher.go:149-162 | applying the overrides twice is applying them once |
| `Watcher.OverrideDataCenters` | backend/application/watcher.go:152-155 | the installed datacenters join back, with commas, to the source's DataCenter |
| `Watcher.ErrorNotice` | backend/application/watcher.go:280-319 | the corrected error notice is an error notification for the source with the cycle's message, and its large Error info reads message + ":" + the failing error's text |
| `Watcher.ErrorNoticeAsWritten` | backend/application/watcher.go:280-319 | the error notice as Go's code sends it is an error notification for the source with the cycle's message, whose large Error info reads message + ":" + SetSourceStatus's formatted result, so "<nil>" when the status was saved |
| `Watcher.ErrorNoticeLosesTheError` | backend/application/watcher.go:272-315 | as written, once SetSourceStatus has succeeded the Error info reads "Could not fetch desired state:<nil>" |
| `Watcher.ErrorNoticeNamesTheError` | backend/application/watcher.go:396-431 | the corrected info always names the failing error; the written one names whatever SetSourceStatus returned; the two notifications are equal iff SetSourceStatus's result prints as the failing error |
| `Watcher.PausedMessage` | backend/application/watcher.go:485-493 | the paused message is "Still in sync" iff there are no changes, and otherwise "Out of sync: c to create, u to update, d to delete" with the three counts |
| `Watcher.FinalStatus` | backend/application/watcher.go:485-497 | the published status is syncedwitherror when a deployment failed, else paused when paused, else the reconciled status; with no job running or failed, the message is the pending-changes message when paused and the reconciled one otherwise; jobs and times are kept |
| `Watcher.Step` | backend/application/watcher.go:245-501 | a loop iteration stops iff the wake-up is a cancellation, and otherwise records whether its cycle failed in hasError; as written or as intended, per its flag |
| `Watcher.StepAsWrittenDiffers` | backend/application/watcher.go:268-326 | the iteration as Go's code writes it and the intended one agree on state, restart and every effect but the notification, and are equal iff the cycle succeeds, the previous one failed, or SetSourceStatus's result prints as the failing error |
| `Watcher.StepPublishes` | backend/application/watcher.go:495-497 | a successful iteration publishes the final status of the reconciliation under the ID of the possibly updated source |
| `Watcher.StepWake` | backend/application/watcher.go:254-266 | only a sync request sets restart, for that iteration only; only a pause request changes paused; only an update replaces the source |
| `Watcher.StepFailure` | backend/application/watcher.go:268-326 | a failed iteration publishes the error status with the failing error and then sends the error notification (formatting SetSourceStatus's result as written, naming the failing error as intended) only if the previous iteration had not failed, and never sends "Synced successfully" |
| `Watcher.StepSuccess` | backend/application/watcher.go:443-500 | a successful iteration sends no error notification, sends exactly one "Synced successfully" notification iff the previous one failed, and ends by publishing the status |
| `Watcher.Run` | backend/application/watcher.go:245-266 | a run has at most one turn per wake-up |
| `Watcher.RunLength` | backend/application/watcher.go:245-266 | every wake-up before the first cancellation runs exactly one iteration, and the run stops exactly at a cancellation |
| `Watcher.StepNotifiesOnChange` | backend/application/watcher.go:268-483 | each iteration notifies only when the outcome switches between failure and success, publishes the error status only with the error notification, and on success publishes its status last |
| `Watcher.RunNotifications` | backend/application/watcher.go:228-483 | over any sequence of outcomes, the error status and notification happen exactly on the first failure of a failure run and a repeated failure does nothing; the first success after it sends exactly one "Synced successfully" and clears hasError; every success publishes its status |
| `Manager.CreateReconciliationManager` | backend/application/reconcilationmanager.go:91-105 | a failed listing returns its error and watches nothing |
| `Manager.WatchAll` | backend/application/reconcilationmanager.go:97-103 | watching the listed sources in turn never fails, and every source watched before stays watched with its entry unchanged |
| `Manager.WatchAllRegisters` | backend/application/reconcilationmanager.go:97-103 | watching the listed sources never fails, registers exactly their IDs next to those already watched, keeps existing entries, and maps each new ID to its first listed source |
| `Manager.ClientUpdatesAreClaimed` | backend/application/reconciler.go:186-221 | with the cluster client as UpdateJob, every job a reconciliation reports as updated carries the source's ID under the nomadops source-ID metadata key |
| `Manager.ManagerWatchesListedSources` | backend/application/reconcilationmanager.go:91-105 | on an empty watcher a successful start registers exactly the listed IDs, duplicates included once; a failed listing returns its error |
| `Manager.OnAddedSource` | backend/application/reconcilationmanager.go:108-114 | adding a source is WatchSource: it is watched afterwards, a known ID changes nothing, and a new one is added with the source |
| `Manager.OnDeletedSource` | backend/application/reconcilationmanager.go:120-126 | deleting a source is StopSourceWatch: exactly its ID leaves the registry and no error comes back |
| `Manager.AddThenDelete` | backend/application/reconcilationmanager.go:108-126 | adding then deleting a source that was not watched leaves the registry as it was |
| `Manager.ClientNeverCreates` | backend/interfaces/nomadcluster/client.go:538-544 | with the Nomad client as the cluster, no reconciliation ever records a creation |
| `Teams.UpsertUser` | backend/domain/team.go:27-34 | after UpsertUser the user is a member; a member changes nothing, and a newcomer is appended at the end with the earlier order kept |
| `Teams.UpsertIsIdempotent` | backend/domain/team.go:27-34 | upserting a user twice is upserting once |
| `Teams.UpsertMembers` | backend/domain/team.go:27-34 | upserting adds exactly the user to the member set and keeps a duplicate-free list duplicate-free |
| `Teams.CollectIDs` | backend/domain/team.go:37-48 | the collected set is the old members plus the new IDs, and the changed flag holds iff some new ID was not a member |
| `Teams.ListSet` | backend/domain/team.go:49-51 | the list holds exactly the set's elements, each once |
| `Teams.MergeMembers` | backend/domain/team.go:36-54 | the members become the union of the old members and the new IDs without duplicates, and the result is true iff some new ID was not a member |
| `Teams.MergeKnownMembers` | backend/domain/team.go:36-54 | merging IDs that are all members reports no change and keeps the member set |
| `Teams.UserIsTeamMember` | frontend/src/domain/Team.ts:10-22 | an undefined or empty member list admits everyone; a non-empty one admits exactly its members |
| `Teams.NotMemberExactly` | frontend/src/domain/Team.ts:10-22 | the test fails exactly for a non-empty member list that lacks the user |
| `Teams.UpsertedUserIsMember` | frontend/src/domain/Team.ts:18-20 | a user that the backend upserted passes the frontend's membership test |
| `Errors.IsTemporary` | backend/utils/errors/errors.go:46-58 | IsTemporary is true only for a value implementing TemporaryError, and for a tempError it is the temp flag |
| `Errors.CreateTemporaryError` | backend/utils/errors/errors.go:61-69 | nil stays nil; any other error becomes a temporary error with the same message |
| `Errors.Join` | backend/interfaces/notifier/composer.go:41 | errors.Join always builds a joined error, which ends with the newly added error |
| `Notifier.ComposeFrom` | backend/interfaces/notifier/composer.go:37-43 | once an error was aggregated the result stays an error, and notifiers that are not configured add nothing |
| `Notifier.ComposeNotify` | backend/interfaces/notifier/composer.go:35-46 | no notifiers give nil, and any error returned is a join |
| `Notifier.ComposeFromJoins` | backend/interfaces/notifier/composer.go:39-42 | the aggregate stays a joined error across the loop |
| `Notifier.ComposeCallsEach` | backend/interfaces/notifier/composer.go:37-43 | every configured notifier is called exactly once, in iteration order, whether or not earlier ones failed |
| `Notifier.ComposeNilExactly` | backend/interfaces/notifier/composer.go:36-45 | the aggregate is nil iff it started nil and no notifier failed |
| `Notifier.ComposeMessage` | backend/interfaces/notifier/composer.go:36-45 | the result is nil iff no notifier failed; otherwise its message is the failures' messages joined with newlines, in call order |
| `Notifier.ComposeNotifyContract` | backend/interfaces/notifier/composer.go:35-46 | for any iteration order of the notifiers, each is called once and the result is nil iff every notifier returned nil |
| `Notifier.GroupContents` | backend/interfaces/notifier/slack.go:99-124 | the blocks built from the infos list the infos' texts in order, each marked large or not |
| `Notifier.GroupShape` | backend/interfaces/notifier/slack.go:99-124 | each block is a text section or a non-empty field section, and no two field sections are adjacent, so the runs of small infos are maximal |
| `Notifier.SlackMessage` | backend/interfaces/notifier/slack.go:83-142 | the message opens with the type's icon and the notification message, closes with the environment block, and, when a source is set, has the source link just before that |
| `Notifier.SlackLayout` | backend/interfaces/notifier/slack.go:77-142 | the first block is icon + " " + message, with the error icon iff the type is error; the last is the env text; the link block is just before it iff a source is set; between them the infos appear in order in maximal non-empty groups |
| `Notifier.SlackNotify` | backend/interfaces/notifier/slack.go:72-163 | an empty webhook URL returns nil and posts nothing; otherwise the message is posted, a transport error is returned, and a status code gives nil iff it is 200 |
| `Notifier.CreateWebhook` | backend/interfaces/notifier/webhook.go:44-96 | creation fails iff a non-empty template fails to parse, with the body template's error when it fails and otherwise the query template's; the method defaults to POST iff it is empty and the URL is set; nothing else of the configuration changes |
| `Notifier.CreateWebhookIsIdempotent` | backend/interfaces/notifier/webhook.go:50-53 | creating a webhook again from a created one's configuration changes nothing |
| `Notifier.AnyMatchesIsMembership` | backend/interfaces/notifier/webhook.go:102-107 | the FireOn loop finds a match iff the type's name is in the list |
| `Notifier.Headers` | backend/interfaces/notifier/webhook.go:145-153 | the request carries the JSON content type, plus the auth header exactly when both its name and value are set; only an auth header named Content-Type overrides the content type |
| `Notifier.WebhookNotify` | backend/interfaces/notifier/webhook.go:98-170 | an empty URL or a type outside a non-empty FireOn returns nil without a request; a request is sent iff the webhook fires and no template, request or query step fails, and then uses the method, URL and headers, the rendered body iff a body template exists and the re-encoded rendered query iff a query template exists; a transport error is returned; a status gives nil iff it is in 200-299; any other error comes from a template, request or query step |
| `Notifier.WebhookAuthHeader` | backend/interfaces/notifier/webhook.go:145-153 | the auth header is set iff both its name and value are non-empty, and otherwise only Content-Type is set |
| `Notifier.WebhookFiresExactly` | backend/interfaces/notifier/webhook.go:99-110 | a webhook with a URL sends iff FireOn is empty or contains the notification type |
| `Middlewares.FileServerRoute` | backend/utils/http/middlewares/middlewares.go:14-24 | a path is served statically iff it starts with the base URL, and the served path is the rest after that prefix |
| `Middlewares.ReplaceAll` | backend/utils/http/middlewares/middlewares.go:56 | strings.ReplaceAll leaves a string without the pattern unchanged, and any string unchanged when the pattern is replaced by itself |
| `Middlewares.ReplaceFirstOccurrence` | backend/utils/http/middlewares/middlewares.go:56 | what precedes the first occurrence is kept, that occurrence becomes the replacement, and the rest is replaced in turn |
| `Middlewares.ReplaceLeading` | backend/utils/http/middlewares/middlewares.go:56 | a document that starts with the placeholder starts, once replaced, with the replacement |
| `Middlewares.SwaggerHost` | backend/utils/http/middlewares/middlewares.go:36-54 | the host is the env host if set; otherwise "http://" + host when the Referer starts with http://, and "https://" + host in every other case |
| `Middlewares.SwaggerJSON` | backend/utils/http/middlewares/middlewares.go:35-63 | exactly the swagger URL is answered, as JSON, with every placeholder replaced by the configured or request-derived host, and a document without the placeholder is served unchanged |
| `Middlewares.SwaggerHostWritten` | backend/utils/http/middlewares/middlewares.go:35-63 | in a served document the first placeholder becomes the host and what precedes it is kept |
| `Middlewares.Wrap` | backend/utils/http/middlewares/middlewares.go:73-78 | a wrapped writer starts with status 200, with no header written and nothing forwarded |
| `Middlewares.WriteHeader` | backend/utils/http/middlewares/middlewares.go:84-92 | the first WriteHeader records and forwards its code; once a header is written, later calls change nothing |
| `Middlewares.FirstWriteWins` | backend/utils/http/middlewares/middlewares.go:84-92 | whatever a handler writes, the writer reports its first code, or 200 when it wrote none, and only that code is forwarded |
| `Middlewares.LaterWritesIgnored` | backend/utils/http/middlewares/middlewares.go:85-87 | once a header was written, any further writes leave the writer unchanged |
| `Middlewares.IgnoredByIsSome` | backend/utils/http/middlewares/middlewares.go:119-123 | the ignore loop returns early iff some prefix starts the escaped path |
| `Middlewares.LogRequest` | backend/utils/http/middlewares/middlewares.go:112-128 | a request is logged iff no ignored prefix starts its escaped path; the line carries the method, escaped path, protocol and the first status written, or 200 |
| `Middlewares.PlainLoggingLogsAll` | backend/utils/http/middlewares/middlewares.go:95-105 | the plain logging middleware logs every request |
| `DiffCleaning.RemoveEmpty` | frontend/src/components/SourceDiffDrawer.tsx:8-21 | removeEmpty throws iff the data is null or undefined |
| `DiffCleaning.RemoveTypeNone` | frontend/src/components/SourceDiffDrawer.tsx:24-40 | removeTypeNone throws iff the data is undefined or holds a null at some depth that the recursion reaches |
| `DiffCleaning.RemoveUndefinedElements` | frontend/src/components/SourceDiffDrawer.tsx:42-51 | removeUndefinedElements throws iff it meets a null, and returns any other primitive unchanged |
| `DiffCleaning.DropUndefined` | frontend/src/components/SourceDiffDrawer.tsx:42-51 | arrays stay arrays, objects stay objects, and primitives are returned as they are |
| `DiffCleaning.KeptEntries` | frontend/src/components/SourceDiffDrawer.tsx:25-31 | the filter keeps only entries that pass it, keeps every entry that passes it, and keeps everything when all pass |
| `DiffCleaning.KeptPositions` | frontend/src/components/SourceDiffDrawer.tsx:25-31 | the positions of the passing entries, strictly increasing, each passing entry's position included |
| `DiffCleaning.KeptEntriesInOrder` | frontend/src/components/SourceDiffDrawer.tsx:25-31 | the kept entries are the entries at the strictly increasing positions of exactly the entries that pass the filter, in that order |
| `DiffCleaning.RemoveEmptyContract` | frontend/src/components/SourceDiffDrawer.tsx:8-21 | removeEmpty's result has no null or undefined value at any depth, applying it again changes nothing, on an object it keeps every key whose value is neither null nor undefined, in order, and each kept entry holds its original value, an object value cleaned recursively |
| `DiffCleaning.RemoveEmptyKeys` | frontend/src/components/SourceDiffDrawer.tsx:8-21 | on an object, removeEmpty keeps exactly the keys whose values are neither null nor undefined, in the original order |
| `DiffCleaning.RemoveTypeNoneContract` | frontend/src/components/SourceDiffDrawer.tsx:24-40 | removeTypeNone's result has no Type: "None" pair at any depth, applying it again changes nothing, and each kept entry holds its original value, an object value cleaned recursively |
| `DiffCleaning.RemoveTypeNoneKeys` | frontend/src/components/SourceDiffDrawer.tsx:25-39 | removeTypeNone keeps every key except a Type whose value is "None", in the original order |
| `DiffCleaning.RemoveEmptyIndexesArrays` | frontend/src/components/SourceDiffDrawer.tsx:14-20 | an array comes out of removeEmpty as an object keyed "0", "1", and so on |
| `DiffCleaning.RebuildValues` | frontend/src/components/SourceDiffDrawer.tsx:10-20 | what the rebuild makes of any value is what the filter makes of its Object.entries: the kept entries in order, under their own keys, a non-object value unchanged and an object value cleaned recursively |
| `DiffCleaning.IndicesArePositions` | frontend/src/components/SourceDiffDrawer.tsx:10 | the array indices the filter keeps are exactly the kept positions of the array's index-keyed entries |
| `DiffCleaning.KeptItems` | frontend/src/components/SourceDiffDrawer.tsx:45 | the array filter keeps only items that are not undefined, keeps every such item, and keeps everything when none is undefined |
| `DiffCleaning.DefinedEntries` | frontend/src/components/SourceDiffDrawer.tsx:47 | the object filter keeps only entries whose value is not undefined, keeps every such entry, and keeps everything when none is undefined |
| `DiffCleaning.RebuildShape` | frontend/src/components/SourceDiffDrawer.tsx:14-20 | every rebuilt value is an object whose nested containers are rebuilt objects too |
| `DiffCleaning.RebuildFixes` | frontend/src/components/SourceDiffDrawer.tsx:33-39 | rebuilding an already rebuilt value gives it back unchanged |
| `DiffCleaning.DropUndefinedContract` | frontend/src/components/SourceDiffDrawer.tsx:44-47 | removeUndefinedElements leaves no undefined item or value at any depth |
| `DiffCleaning.DropUndefinedFixes` | frontend/src/components/SourceDiffDrawer.tsx:42-51 | a value without undefined parts comes out of removeUndefinedElements unchanged |
| `DiffCleaning.CleanDiffContract` | frontend/src/components/SourceDiffDrawer.tsx:68-70 | cleanDiff throws iff the diff is null or undefined; otherwise its result has no null, no undefined and no Type: "None" pair at any depth, and on an object it keeps every other key, in order; removeUndefinedElements changes nothing, so the values are those removeTypeNone makes of removeEmpty's result |
| `DiffCleaning.CleanDiff` | frontend/src/components/SourceDiffDrawer.tsx:68-70 | cleanDiff throws iff the diff is null or undefined: the later passes never meet a null |
| `DiffCleaning.CleanDiffKeys` | frontend/src/components/SourceDiffDrawer.tsx:68-70 | on an object, cleanDiff keeps exactly the keys whose value is neither null nor undefined, except a Type whose value is "None", in the original order |
| `RealtimeStore.NewStore` | frontend/src/services/RealTimeAccess.tsx:10-13 | registering a known collection changes nothing; a new one adds exactly that store, with its value unset until loaded |
| `RealtimeStore.NewStoreIsIdempotent` | frontend/src/services/RealTimeAccess.tsx:10-13 | registering a collection twice is registering it once, whatever the second transformer |
| `RealtimeStore.LoadMapContents` | frontend/src/services/RealTimeAccess.tsx:36-42 | the loaded map has exactly the records' ids, each mapped to the transformed last record that carries it |
| `RealtimeStore.Load` | frontend/src/services/RealTimeAccess.tsx:34-44 | after the initial load the store holds exactly the records' ids, each mapped to its transformed record |
| `RealtimeStore.OnEvent` | frontend/src/services/RealTimeAccess.tsx:45-71 | before the load an event is ignored; create and update set the record's entry and leave other keys alone; delete removes exactly that id; any other action changes nothing |
| `RealtimeStore.EventsBeforeLoadIgnored` | frontend/src/services/RealTimeAccess.tsx:49-52 | any number of events before the initial load leave the store as it is |
| `RealtimeStore.CreateThenDelete` | frontend/src/services/RealTimeAccess.tsx:53-64 | creating a record and then deleting it restores a loaded store that lacked it |
| `RealtimeStore.RepeatedEventIsIdempotent` | frontend/src/services/RealTimeAccess.tsx:53-67 | delivering the same event twice is delivering it once |
| `RealtimeStore.GetStore` | frontend/src/services/RealTimeAccess.tsx:88-106 | a store is found iff its collection is registered, and it is the registered store |
| `RealtimeStore.NewStoreIsFound` | frontend/src/services/RealTimeAccess.tsx:83-100 | a store that NewStore registered is found by GetStore, with its value still unset |

## Left out

- Goroutines, channels, `time.After`, context cancellation, `recover` and metrics of the watch loop
  (backend/application/watcher.go:172-266). A loop iteration is a step function of the wake-up it received.
  A hand-over's result stands for the select on the loop's channel or the caller's context.
- Calls into Nomad and git are parameters:
  - the Nomad API (Plan, Register, Deregister, LatestDeployment, List/Info, Namespaces);
  - the event stream;
  - proxy.go;
  - git cloning and HCL parsing.
- `strconv.Atoi` is a partial parse parameter. `time.Now` and the RFC 3339 stamp are opaque values, with one
  `now` per reconciliation and per loop iteration.
- The audit-event store and the notifier are recorded calls. The reconciler and the loop log and ignore their
  errors.
- The applyOverrides error branch (backend/application/watcher.go:328-382) is not modelled, because
  applyOverrides always returns nil.
- The watch-error branch of CreateReconciliationManager and OnAddedSource is not modelled, because WatchSource
  always returns nil.
- The `ReconcilerFunc` stored with a watch is not recorded. Every loop uses OnReconcile. The fifth `paused`
  argument at backend/application/watcher.go:384 is dropped because the reconciler reads `src.Paused`.
- The status and deployment fields of a task group are plain strings. `UpdateJobInfo.Diff` (the JSON of the
  plan diff) is not modelled.
- hasUpdate checks a field named `MemoryMB` while the copy-back reads `Memory`. Both are kept literally.
- Slack and webhook transport, JSON marshalling and `text/template` rendering are parameters. These are the
  posted status code or transport error, the executed template or its error, and `url.ParseQuery`.
- Webhook configuration:
  - Header names are not canonicalised.
  - Timeout and Insecure are carried in the configuration but not modelled. Notify sends through
    `http.DefaultClient` (backend/interfaces/notifier/webhook.go:155), so they have no effect there either.
- Middlewares.ReplaceAll models `strings.ReplaceAll` only for a non-empty pattern, the only one used.
- The elapsed time in access-log lines is not modelled, nor the static file server's or the swagger writer's
  output beyond the reply.
- JavaScript values:
  - Numbers are integers.
  - Object keys are kept in insertion order. The engine's reordering of integer-like keys is not modelled.
  - Object entries are assumed to have distinct keys.
- The RxJS subject, the subscription plumbing and the one-second polling of GetStore are not modelled.
  GetStore answers once, with the registered store or none.
- MergeMembers builds the new list from a Go map, in an unspecified order. The model picks the elements in an
  arbitrary order, so only the set and the absence of duplicates are stated, not the order.
- PocketBase schema setup, the record stores, main.go wiring, env parsing, logging, metrics, Azure team sync
  and the React pages are not part of this model.

## Findings

| source | as written | input that shows it | evidently intended | confidence | as-written member | corrected member |
|---|---|---|---|---|---|---|
| backend/application/watcher.go:272-315 | the error notification formats `err` after `err` was overwritten by SetSourceStatus's result, here and at 388-431 | a desired-state fetch fails, and SetSourceStatus then returns nil: the Error info reads "Could not fetch desired state:<nil>" | the Error info names the error that failed the cycle | high, not executed | `Watcher.ErrorNoticeLosesTheError` | `Watcher.ErrorNotice` |
| backend/application/watcher.go:84-88 | SyncSourceByID and PauseSourceByID (99-103) return ErrNotFound without unlocking the watcher's mutex | SyncSourceByID for an unregistered ID, then any WatchSource, StopSourceWatch, SyncSource or by-ID call: that call blocks on Lock for good | every branch releases the mutex, so every later call completes | high, not executed | `Watcher.UnknownIDBlocksTheWatcher` | `Watcher.Completed` |
