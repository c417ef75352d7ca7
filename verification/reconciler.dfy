/** The reconciler (backend/application/reconciler.go, ReconciliationManager.OnReconcile): one
    reconciliation of a source's desired jobs against the jobs live in the cluster. It deletes live jobs
    that are no longer desired, passes every desired job to the cluster's UpdateJob, and builds the
    status snapshot and the change summary. When the source is paused the changes are only reported.
    The cluster collaborator's results are parameters; the audit-event store and the notifier only
    have their calls recorded, since Go's code logs and otherwise ignores their errors. */
module Reconciler {
  import opened Wrappers
  import opened Text
  import opened Errors
  import opened Nomad
  import opened Domain
  import opened Application

  /** strPtrToStr: a nil string is "". */
  function StrPtrToStr(s: Option<string>): (r: string)
    ensures s.None? ==> r == ""
    ensures s.Some? ==> r == s.value
  {
    s.GetOr("")
  }

  /** intPtrToInt: a nil int is 0. */
  function IntPtrToInt(n: Option<int>): (r: int)
    ensures n.None? ==> r == 0
    ensures n.Some? ==> r == n.value
  {
    n.GetOr(0)
  }

  /** toTimePtr: the zero time becomes nil. */
  function ToTimePtr(t: Time): (r: Option<Time>)
    ensures r.None? <==> t.ZeroTime?
    ensures r.Some? ==> r.value == t
  {
    if t.ZeroTime? then None else Some(t)
  }

  // ---------------------------------------------------------------------------------------------
  // Status snapshot of one job.

  /** The keys of a slice's entries. */
  function KeysOf<T>(xs: seq<T>, key: T -> string): set<string> {
    set i | 0 <= i < |xs| :: key(xs[i])
  }

  /** Entries keyed by `key`, in order, a later entry replacing an earlier one with the same key
      (the Go loops that fill a status map from a slice). */
  function KeyedBy<T, V>(xs: seq<T>, key: T -> string, val: T -> V): (r: map<string, V>)
    ensures r.Keys == KeysOf(xs, key)
    ensures forall k | k in r :: exists i | 0 <= i < |xs| :: key(xs[i]) == k && r[k] == val(xs[i])
  {
    if xs == [] then map[]
    else
      var init := xs[..|xs| - 1];
      var last := xs[|xs| - 1];
      assert forall i | 0 <= i < |init| :: init[i] == xs[i];
      var m := KeyedBy(init, key, val);
      assert KeysOf(xs, key) == KeysOf(init, key) + {key(last)} by {
        forall k | k in KeysOf(xs, key)
          ensures k in KeysOf(init, key) + {key(last)}
        {
          var i :| 0 <= i < |xs| && key(xs[i]) == k;
          if i < |init| {
            assert key(init[i]) == k;
          }
        }
      }
      m[key(last) := val(last)]
  }

  function GroupStatusOf(tg: TaskGroup): GroupStatus {
    GroupStatus(
      IntPtrToInt(tg.count),
      KeyedBy(tg.services, (s: Service) => s.name, (s: Service) => ServiceStatus(s.portLabel)),
      KeyedBy(tg.tasks, (t: Task) => t.name, (t: Task) => TaskStatus(t.driver)))
  }

  /** A job's status entry: its type and deployment status, the live job's status and description when one
      exists (else "unknown" and ""), and one group entry per task group, whose count is 0 when unset. */
  function JobStatusOf(job: JobInfo, live: map<string, JobInfo>, k: string, deploymentStatus: string): (r: JobStatus)
    ensures r.status == if k in live then StrPtrToStr(live[k].job.status) else StatusUnknown
    ensures r.statusDescription == if k in live then StrPtrToStr(live[k].job.statusDescription) else ""
    ensures r.deploymentStatus == deploymentStatus
    ensures r.jobType == StrPtrToStr(job.job.jobType)
  {
    var base := JobStatus(
      KeyedBy(job.job.taskGroups, (tg: TaskGroup) => tg.name, GroupStatusOf),
      StatusUnknown, deploymentStatus, "", StrPtrToStr(job.job.jobType), "");
    if k in live then base.(status := StrPtrToStr(live[k].job.status), statusDescription := StrPtrToStr(live[k].job.statusDescription))
    else base
  }

  /** A job's status entry has one group entry per task group, whose count is 0 when unset. */
  lemma JobStatusGroups(job: JobInfo, live: map<string, JobInfo>, k: string, deploymentStatus: string)
    ensures JobStatusOf(job, live, k, deploymentStatus).groups.Keys == KeysOf(job.job.taskGroups, (tg: TaskGroup) => tg.name)
    ensures forall g | g in JobStatusOf(job, live, k, deploymentStatus).groups :: exists i | 0 <= i < |job.job.taskGroups| ::
      job.job.taskGroups[i].name == g && JobStatusOf(job, live, k, deploymentStatus).groups[g].count == IntPtrToInt(job.job.taskGroups[i].count)
  {
  }

  // ---------------------------------------------------------------------------------------------
  // Calls to collaborators, and the state threaded through the two passes.

  /** A collaborator call, with the key of the job it concerns. */
  datatype Effect =
    | DeleteCall(key: string)
    | UpdateCall(key: string)
    | SaveEventCall(key: string, event: Event)
    | NotifyCall(key: string, options: NotifyOptions)

  datatype Progress = Progress(status: SourceStatus, changes: ChangeInfo, effects: seq<Effect>)

  datatype Step = Ongoing(progress: Progress) | Aborted(error: Error, effects: seq<Effect>)
  {
    function Effects(): seq<Effect> {
      if Ongoing? then progress.effects else effects
    }
  }

  /** `after` starts with `before`. */
  predicate Extends(before: seq<Effect>, after: seq<Effect>) {
    |before| <= |after| && after[..|before|] == before
  }

  lemma ExtendsTrans(a: seq<Effect>, b: seq<Effect>, c: seq<Effect>)
    requires Extends(a, b) && Extends(b, c)
    ensures Extends(a, c)
  {
    assert c[..|a|] == c[..|b|][..|a|];
  }

  // ---------------------------------------------------------------------------------------------
  // Deletion pass.

  predicate PeriodicEnabled(j: Job) {
    j.periodic.Some? && j.periodic.value.enabled == Some(true)
  }

  /** A live job that is recorded for deletion: not desired any more, not an enabled periodic job, and
      with a non-empty parent ID (jobs without a parent are left alone). */
  predicate DeletionCandidate(desired: DesiredState, live: map<string, JobInfo>, k: string) {
    k in live && k !in desired.jobs && !PeriodicEnabled(live[k].job) && StrPtrToStr(live[k].job.parentID) != ""
  }

  function DeletedEvent(src: Source, job: JobInfo): Event {
    Event("Deleted Job:" + StrPtrToStr(job.job.name), EventDeleted, src.id)
  }

  /** An effect the deletion pass may have over `order`: deleting a candidate, or saving its event,
      neither of which happens for a paused source. */
  predicate DeletionEffect(src: Source, desired: DesiredState, live: map<string, JobInfo>, order: seq<string>, e: Effect) {
    && !src.paused
    && match e
       case DeleteCall(k) => k in order && DeletionCandidate(desired, live, k)
       case SaveEventCall(k, ev) => k in order && DeletionCandidate(desired, live, k) && ev == DeletedEvent(src, live[k])
       case _ => false
  }

  /** The live jobs recorded for deletion among the keys in `order`. */
  function DeletedJobs(desired: DesiredState, live: map<string, JobInfo>, order: seq<string>): map<string, JobInfo> {
    map k | k in order && DeletionCandidate(desired, live, k) :: live[k]
  }

  /** One iteration of the loop over the live jobs. */
  function DeleteOne(src: Source, desired: DesiredState, live: map<string, JobInfo>, k: string,
                     deleteJob: JobInfo -> Option<Error>, now: Time, p: Progress): (r: Step)
    ensures Extends(p.effects, r.Effects())
    ensures !DeletionCandidate(desired, live, k) ==> r == Ongoing(p)
    ensures DeletionCandidate(desired, live, k) && src.paused ==>
      r == Ongoing(p.(changes := p.changes.(delete := p.changes.delete[k := live[k]])))
    ensures DeletionCandidate(desired, live, k) && !src.paused && deleteJob(live[k]).Some? ==>
      r == Aborted(deleteJob(live[k]).value, p.effects + [DeleteCall(k)])
    ensures DeletionCandidate(desired, live, k) && !src.paused && deleteJob(live[k]).None? ==>
      r == Ongoing(Progress(
        p.status.(lastUpdateTime := ToTimePtr(now)),
        p.changes.(delete := p.changes.delete[k := live[k]]),
        p.effects + [DeleteCall(k), SaveEventCall(k, DeletedEvent(src, live[k]))]))
  {
    if !DeletionCandidate(desired, live, k) then Ongoing(p)
    else
      var p := p.(changes := p.changes.(delete := p.changes.delete[k := live[k]]));
      if src.paused then Ongoing(p)
      else
        var effects := p.effects + [DeleteCall(k)];
        match deleteJob(live[k])
        case Some(e) => Aborted(e, effects)
        case None =>
          assert effects + [SaveEventCall(k, DeletedEvent(src, live[k]))] == p.effects + [DeleteCall(k), SaveEventCall(k, DeletedEvent(src, live[k]))];
          Ongoing(p.(status := p.status.(lastUpdateTime := ToTimePtr(now)),
                     effects := effects + [SaveEventCall(k, DeletedEvent(src, live[k]))]))
  }

  /** The loop over the live jobs, visited in `order`, stopping at the first failed deletion. */
  function DeletionPass(src: Source, desired: DesiredState, live: map<string, JobInfo>, order: seq<string>,
                        deleteJob: JobInfo -> Option<Error>, now: Time, p: Progress): (r: Step)
    ensures Extends(p.effects, r.Effects())
    decreases |order|
  {
    if order == [] then Ongoing(p)
    else
      var step := DeleteOne(src, desired, live, order[0], deleteJob, now, p);
      if step.Aborted? then step
      else
        var r := DeletionPass(src, desired, live, order[1..], deleteJob, now, step.progress);
        ExtendsTrans(p.effects, step.progress.effects, r.Effects());
        r
  }

  /** The deletion pass only deletes candidates and saves their events, and does neither when paused. */
  lemma {:induction false} DeletionPassEffects(src: Source, desired: DesiredState, live: map<string, JobInfo>, order: seq<string>,
                                               deleteJob: JobInfo -> Option<Error>, now: Time, p: Progress)
    ensures forall j | |p.effects| <= j < |DeletionPass(src, desired, live, order, deleteJob, now, p).Effects()| ::
      DeletionEffect(src, desired, live, order, DeletionPass(src, desired, live, order, deleteJob, now, p).Effects()[j])
    decreases |order|
  {
    if order != [] {
      var step := DeleteOne(src, desired, live, order[0], deleteJob, now, p);
      assert forall j | |p.effects| <= j < |step.Effects()| :: DeletionEffect(src, desired, live, order, step.Effects()[j]);
      if step.Ongoing? {
        var r := DeletionPass(src, desired, live, order[1..], deleteJob, now, step.progress);
        DeletionPassEffects(src, desired, live, order[1..], deleteJob, now, step.progress);
        forall j | |p.effects| <= j < |r.Effects()| ensures DeletionEffect(src, desired, live, order, r.Effects()[j]) {
          if j < |step.progress.effects| {
            assert r.Effects()[..|step.progress.effects|][j] == r.Effects()[j];
          } else {
            assert DeletionEffect(src, desired, live, order[1..], r.Effects()[j]);
            assert r.Effects()[j].key in order[1..];
          }
        }
      }
    }
  }

  /** The deletion pass aborts exactly when a deletion it attempts fails. */
  /** Some deletion candidate along `order` fails to delete, on a source that is not paused. */
  predicate DeleteFailsAlong(src: Source, desired: DesiredState, live: map<string, JobInfo>, order: seq<string>,
                             deleteJob: JobInfo -> Option<Error>) {
    !src.paused && exists i | 0 <= i < |order| :: DeletionCandidate(desired, live, order[i]) && deleteJob(live[order[i]]).Some?
  }

  lemma {:induction false} DeletionPassAborts(src: Source, desired: DesiredState, live: map<string, JobInfo>, order: seq<string>,
                                              deleteJob: JobInfo -> Option<Error>, now: Time, p: Progress)
    ensures DeletionPass(src, desired, live, order, deleteJob, now, p).Aborted? <==> DeleteFailsAlong(src, desired, live, order, deleteJob)
    decreases |order|
  {
    if order != [] {
      assert forall i | 1 <= i < |order| :: order[i] == order[1..][i - 1];
      var step := DeleteOne(src, desired, live, order[0], deleteJob, now, p);
      if step.Ongoing? {
        DeletionPassAborts(src, desired, live, order[1..], deleteJob, now, step.progress);
      }
    }
  }

  /** A completed deletion pass records exactly the candidates, and nothing else of the change summary. */
  lemma {:induction false} DeletionPassChanges(src: Source, desired: DesiredState, live: map<string, JobInfo>, order: seq<string>,
                                               deleteJob: JobInfo -> Option<Error>, now: Time, p: Progress)
    ensures DeletionPass(src, desired, live, order, deleteJob, now, p).Ongoing? ==>
      DeletionPass(src, desired, live, order, deleteJob, now, p).progress.changes == p.changes.(delete := p.changes.delete + DeletedJobs(desired, live, order))
    decreases |order|
  {
    if order == [] {
      assert p.changes.delete + DeletedJobs(desired, live, order) == p.changes.delete;
    } else {
      var step := DeleteOne(src, desired, live, order[0], deleteJob, now, p);
      if step.Ongoing? {
        DeletionPassChanges(src, desired, live, order[1..], deleteJob, now, step.progress);
        DeletedJobsCons(desired, live, order, p.changes.delete);
      }
    }
  }

  /** Recording the first key's deletion and then the rest's is recording all of them. */
  lemma DeletedJobsCons(desired: DesiredState, live: map<string, JobInfo>, order: seq<string>, acc: map<string, JobInfo>)
    requires order != []
    ensures (if DeletionCandidate(desired, live, order[0]) then acc[order[0] := live[order[0]]] else acc) + DeletedJobs(desired, live, order[1..])
         == acc + DeletedJobs(desired, live, order)
  {
    var k := order[0];
    assert forall x :: x in order <==> x == k || x in order[1..];
  }

  /** Of the status, a completed deletion pass changes the last-update time only, and sets it exactly when
      it deleted something. */
  lemma {:induction false} DeletionPassStatus(src: Source, desired: DesiredState, live: map<string, JobInfo>, order: seq<string>,
                                              deleteJob: JobInfo -> Option<Error>, now: Time, p: Progress)
    ensures DeletionPass(src, desired, live, order, deleteJob, now, p).Ongoing? ==>
      && DeletionPass(src, desired, live, order, deleteJob, now, p).progress.status.(lastUpdateTime := p.status.lastUpdateTime) == p.status
      && DeletionPass(src, desired, live, order, deleteJob, now, p).progress.status.lastUpdateTime ==
           (if !src.paused && exists i | 0 <= i < |order| :: DeletionCandidate(desired, live, order[i])
            then ToTimePtr(now) else p.status.lastUpdateTime)
    decreases |order|
  {
    if order != [] {
      assert forall i | 1 <= i < |order| :: order[i] == order[1..][i - 1];
      var step := DeleteOne(src, desired, live, order[0], deleteJob, now, p);
      if step.Ongoing? {
        DeletionPassStatus(src, desired, live, order[1..], deleteJob, now, step.progress);
      }
    }
  }

  /** A completed deletion pass of a source that is not paused called DeleteJob for every candidate. */
  lemma {:induction false} DeletionPassDeletes(src: Source, desired: DesiredState, live: map<string, JobInfo>, order: seq<string>,
                                               deleteJob: JobInfo -> Option<Error>, now: Time, p: Progress)
    ensures DeletionPass(src, desired, live, order, deleteJob, now, p).Ongoing? && !src.paused ==>
      forall i | 0 <= i < |order| && DeletionCandidate(desired, live, order[i]) ::
        DeleteCall(order[i]) in DeletionPass(src, desired, live, order, deleteJob, now, p).progress.effects
    decreases |order|
  {
    if order != [] {
      assert forall i | 1 <= i < |order| :: order[i] == order[1..][i - 1];
      var step := DeleteOne(src, desired, live, order[0], deleteJob, now, p);
      if step.Ongoing? {
        DeletionPassDeletes(src, desired, live, order[1..], deleteJob, now, step.progress);
        var r := DeletionPass(src, desired, live, order[1..], deleteJob, now, step.progress);
        if r.Ongoing? && !src.paused && DeletionCandidate(desired, live, order[0]) {
          assert step.progress.effects[|p.effects|] == DeleteCall(order[0]);
          assert r.Effects()[..|step.progress.effects|] == step.progress.effects;
          assert r.Effects()[|p.effects|] == DeleteCall(order[0]);
        }
      }
    }
  }

  // ---------------------------------------------------------------------------------------------
  // Update pass.

  function CreatedEvent(src: Source, job: JobInfo): Event {
    Event("Created Job:" + StrPtrToStr(job.job.name), EventCreated, src.id)
  }

  function UpdatedEvent(src: Source, job: JobInfo): Event {
    Event("Updated Job:" + StrPtrToStr(job.job.name), EventUpdated, src.id)
  }

  /** The success notification sent for an updated job. */
  function UpdateNotice(src: Source, desired: DesiredState, job: JobInfo, restart: bool): NotifyOptions {
    NotifyOptions(
      Some(src), desired.gitInfo, NotificationSuccess, "Updated Job:" + StrPtrToStr(job.job.name),
      [ NotifyInfo("Git-Commit", desired.gitInfo.gitCommit, false),
        NotifyInfo("Git-Url", src.url, false),
        NotifyInfo("Git-Ref", src.branch, false),
        NotifyInfo("Git-Repo-Path", src.path, false),
        NotifyInfo("Nomad-Namespace", src.namespace, false),
        NotifyInfo("Nomad-Region", src.region, false),
        NotifyInfo("Force Restart", BoolToString(restart), false) ])
  }

  /** UpdateJob succeeded for desired job `k` and reported it created (when `created`) and updated (when
      `updated`). */
  predicate Reported(desired: DesiredState, updateJob: JobInfo -> Result<UpdateJobInfo, Error>, k: string, created: bool, updated: bool) {
    && k in desired.jobs
    && updateJob(desired.jobs[k]).Success?
    && (created ==> updateJob(desired.jobs[k]).value.created)
    && (updated ==> updateJob(desired.jobs[k]).value.updated)
  }

  /** The JobInfo UpdateJob was handed, as the call left it. */
  function AfterUpdate(job: JobInfo, info: UpdateJobInfo): JobInfo {
    job.(job := info.job)
  }

  /** Desired job `k` as its successful UpdateJob call left it: what the loop reads after the call. */
  function Changed(desired: DesiredState, updateJob: JobInfo -> Result<UpdateJobInfo, Error>, k: string): JobInfo
    requires Reported(desired, updateJob, k, false, false)
  {
    AfterUpdate(desired.jobs[k], updateJob(desired.jobs[k]).value)
  }

  /** An effect the update pass may have over `order`: the UpdateJob call for each desired job, and for a
      source that is not paused the Created/Updated events and the notification of an update. */
  predicate UpdateEffect(src: Source, desired: DesiredState, updateJob: JobInfo -> Result<UpdateJobInfo, Error>,
                         order: seq<string>, restart: bool, e: Effect) {
    match e
    case UpdateCall(k) => k in order && k in desired.jobs
    case SaveEventCall(k, ev) =>
      && !src.paused && k in order
      && (|| (Reported(desired, updateJob, k, true, false) && ev == CreatedEvent(src, Changed(desired, updateJob, k)))
          || (Reported(desired, updateJob, k, false, true) && ev == UpdatedEvent(src, Changed(desired, updateJob, k))))
    case NotifyCall(k, opts) =>
      !src.paused && k in order && Reported(desired, updateJob, k, false, true) && opts == UpdateNotice(src, desired, Changed(desired, updateJob, k), restart)
    case DeleteCall(_) => false
  }

  /** The desired jobs among `order` that UpdateJob reported as created. */
  function CreatedJobs(desired: DesiredState, updateJob: JobInfo -> Result<UpdateJobInfo, Error>, order: seq<string>): map<string, JobInfo> {
    map k | k in order && Reported(desired, updateJob, k, true, false) :: Changed(desired, updateJob, k)
  }

  /** The desired jobs among `order` that UpdateJob reported as updated, except those also created on a
      paused source. */
  function UpdatedJobs(src: Source, desired: DesiredState, updateJob: JobInfo -> Result<UpdateJobInfo, Error>, order: seq<string>): map<string, JobInfo> {
    map k | k in order && Reported(desired, updateJob, k, false, true) && !(src.paused && updateJob(desired.jobs[k]).value.created) :: Changed(desired, updateJob, k)
  }

  /** The status keys of the desired jobs among `order` that UpdateJob took: their names after the call. */
  function StatusNames(desired: DesiredState, updateJob: JobInfo -> Result<UpdateJobInfo, Error>, order: seq<string>): set<string> {
    set i | 0 <= i < |order| && Reported(desired, updateJob, order[i], false, false) :: JobName(Changed(desired, updateJob, order[i]))
  }

  /** The events and notification that follow a successful UpdateJob: a Created event for a creation, an
      Updated event and a notification for an update, none of them for a paused source. */
  function ReportEffects(src: Source, desired: DesiredState, k: string, job: JobInfo, info: UpdateJobInfo, restart: bool): seq<Effect> {
    if src.paused then []
    else
      (if info.created then [SaveEventCall(k, CreatedEvent(src, job))] else []) +
      (if info.updated then [SaveEventCall(k, UpdatedEvent(src, job)), NotifyCall(k, UpdateNotice(src, desired, job, restart))] else [])
  }

  /** Recording one successful UpdateJob result for desired job `k`, `job` being the job as the call left
      it: its status entry (keyed by job name),
      the last-update time when it was created or updated, its Create and Update entries (a job both
      created and updated on a paused source is only in Create, since the source's loop continues after
      the Create branch), and the events and notification of ReportEffects. */
  function Record(src: Source, desired: DesiredState, live: map<string, JobInfo>, k: string, job: JobInfo,
                  info: UpdateJobInfo, restart: bool, now: Time, p: Progress): Progress {
    Progress(
      p.status.(
        jobs := p.status.jobs[JobName(job) := JobStatusOf(job, live, k, info.deploymentStatus)],
        lastUpdateTime := if info.created || info.updated then ToTimePtr(now) else p.status.lastUpdateTime),
      p.changes.(
        create := if info.created then p.changes.create[k := job] else p.changes.create,
        update := if info.updated && !(info.created && src.paused) then p.changes.update[k := job] else p.changes.update),
      p.effects + ReportEffects(src, desired, k, job, info, restart))
  }

  /** One iteration of the loop over the desired jobs. */
  function UpdateOne(src: Source, desired: DesiredState, live: map<string, JobInfo>, k: string,
                     updateJob: JobInfo -> Result<UpdateJobInfo, Error>, restart: bool, now: Time, p: Progress): (r: Step)
    ensures Extends(p.effects, r.Effects())
    ensures k !in desired.jobs ==> r == Ongoing(p)
    ensures k in desired.jobs && updateJob(desired.jobs[k]).Failure? ==>
      r == Aborted(updateJob(desired.jobs[k]).error, p.effects + [UpdateCall(k)])
    ensures k in desired.jobs && updateJob(desired.jobs[k]).Success? ==>
      r == Ongoing(Record(src, desired, live, k, Changed(desired, updateJob, k), updateJob(desired.jobs[k]).value, restart, now, p.(effects := p.effects + [UpdateCall(k)])))
  {
    if k !in desired.jobs then Ongoing(p)
    else
      var job := desired.jobs[k];
      var p := p.(effects := p.effects + [UpdateCall(k)]);
      match updateJob(job)
      case Failure(e) => Aborted(e, p.effects)
      case Success(info) => Ongoing(Record(src, desired, live, k, AfterUpdate(job, info), info, restart, now, p))
  }

  /** The loop over the desired jobs, visited in `order`, stopping at the first failed UpdateJob. */
  function UpdatePass(src: Source, desired: DesiredState, live: map<string, JobInfo>, order: seq<string>,
                      updateJob: JobInfo -> Result<UpdateJobInfo, Error>, restart: bool, now: Time, p: Progress): (r: Step)
    ensures Extends(p.effects, r.Effects())
    decreases |order|
  {
    if order == [] then Ongoing(p)
    else
      var step := UpdateOne(src, desired, live, order[0], updateJob, restart, now, p);
      if step.Aborted? then step
      else
        var r := UpdatePass(src, desired, live, order[1..], updateJob, restart, now, step.progress);
        ExtendsTrans(p.effects, step.progress.effects, r.Effects());
        r
  }

  /** The effects of one iteration over key `k` of `order` are UpdateEffects. */
  lemma UpdateOneEffects(src: Source, desired: DesiredState, live: map<string, JobInfo>, order: seq<string>, k: string,
                         updateJob: JobInfo -> Result<UpdateJobInfo, Error>, restart: bool, now: Time, p: Progress)
    requires k in order
    ensures Extends(p.effects, UpdateOne(src, desired, live, k, updateJob, restart, now, p).Effects())
    ensures forall j | |p.effects| <= j < |UpdateOne(src, desired, live, k, updateJob, restart, now, p).Effects()| ::
      UpdateEffect(src, desired, updateJob, order, restart, UpdateOne(src, desired, live, k, updateJob, restart, now, p).Effects()[j])
  {
    var step := UpdateOne(src, desired, live, k, updateJob, restart, now, p);
    if k in desired.jobs && updateJob(desired.jobs[k]).Success? {
      var info := updateJob(desired.jobs[k]).value;
      var extra := [UpdateCall(k)] + ReportEffects(src, desired, k, Changed(desired, updateJob, k), info, restart);
      ReportEffectsAreUpdateEffects(src, desired, updateJob, order, k, restart);
      UpdateOneSuccessEffects(src, desired, live, k, updateJob, restart, now, p);
      AppendedUpdateEffects(src, desired, updateJob, order, restart, p.effects, extra);
    }
  }

  lemma UpdateOneSuccessEffects(src: Source, desired: DesiredState, live: map<string, JobInfo>, k: string,
                                updateJob: JobInfo -> Result<UpdateJobInfo, Error>, restart: bool, now: Time, p: Progress)
    requires k in desired.jobs && updateJob(desired.jobs[k]).Success?
    ensures UpdateOne(src, desired, live, k, updateJob, restart, now, p).Effects() ==
      p.effects + ([UpdateCall(k)] + ReportEffects(src, desired, k, Changed(desired, updateJob, k), updateJob(desired.jobs[k]).value, restart))
  {
  }

  lemma AppendedUpdateEffects(src: Source, desired: DesiredState, updateJob: JobInfo -> Result<UpdateJobInfo, Error>,
                              order: seq<string>, restart: bool, before: seq<Effect>, extra: seq<Effect>)
    requires forall e | e in extra :: UpdateEffect(src, desired, updateJob, order, restart, e)
    ensures forall j | |before| <= j < |before + extra| :: UpdateEffect(src, desired, updateJob, order, restart, (before + extra)[j])
  {
    forall j | |before| <= j < |before + extra|
      ensures UpdateEffect(src, desired, updateJob, order, restart, (before + extra)[j])
    {
      assert (before + extra)[j] == extra[j - |before|];
    }
  }

  /** The events and notification reported for a key of `order` are UpdateEffects. */
  lemma ReportEffectsAreUpdateEffects(src: Source, desired: DesiredState, updateJob: JobInfo -> Result<UpdateJobInfo, Error>,
                                      order: seq<string>, k: string, restart: bool)
    requires k in order && k in desired.jobs && updateJob(desired.jobs[k]).Success?
    ensures forall e | e in [UpdateCall(k)] + ReportEffects(src, desired, k, Changed(desired, updateJob, k), updateJob(desired.jobs[k]).value, restart) ::
      UpdateEffect(src, desired, updateJob, order, restart, e)
  {
  }

  /** The update pass's new effects are all UpdateEffects: one UpdateJob call per desired job, and
      events and notifications only for what UpdateJob reported, never for a paused source. */
  lemma {:induction false} UpdatePassEffects(src: Source, desired: DesiredState, live: map<string, JobInfo>, order: seq<string>,
                                             updateJob: JobInfo -> Result<UpdateJobInfo, Error>, restart: bool, now: Time, p: Progress)
    ensures forall j | |p.effects| <= j < |UpdatePass(src, desired, live, order, updateJob, restart, now, p).Effects()| ::
      UpdateEffect(src, desired, updateJob, order, restart, UpdatePass(src, desired, live, order, updateJob, restart, now, p).Effects()[j])
    decreases |order|
  {
    if order != [] {
      var k := order[0];
      var step := UpdateOne(src, desired, live, k, updateJob, restart, now, p);
      UpdateOneEffects(src, desired, live, order, k, updateJob, restart, now, p);
      if step.Ongoing? {
        var r := UpdatePass(src, desired, live, order[1..], updateJob, restart, now, step.progress);
        UpdatePassEffects(src, desired, live, order[1..], updateJob, restart, now, step.progress);
        forall j | |p.effects| <= j < |r.Effects()| ensures UpdateEffect(src, desired, updateJob, order, restart, r.Effects()[j]) {
          if j < |step.progress.effects| {
            assert r.Effects()[..|step.progress.effects|][j] == r.Effects()[j];
          } else {
            UpdateEffectWiden(src, desired, updateJob, order, restart, r.Effects()[j]);
          }
        }
      }
    }
  }

  /** An UpdateEffect over the tail of `order` is one over `order`. */
  lemma UpdateEffectWiden(src: Source, desired: DesiredState, updateJob: JobInfo -> Result<UpdateJobInfo, Error>,
                          order: seq<string>, restart: bool, e: Effect)
    requires order != [] && UpdateEffect(src, desired, updateJob, order[1..], restart, e)
    ensures UpdateEffect(src, desired, updateJob, order, restart, e)
  {
    assert e.key in order[1..];
  }

  /** The update pass aborts exactly when UpdateJob fails for one of the desired jobs it visits. */
  /** Some desired job along `order` fails to update. */
  predicate UpdateFailsAlong(desired: DesiredState, order: seq<string>, updateJob: JobInfo -> Result<UpdateJobInfo, Error>) {
    exists i | 0 <= i < |order| :: order[i] in desired.jobs && updateJob(desired.jobs[order[i]]).Failure?
  }

  lemma {:induction false} UpdatePassAborts(src: Source, desired: DesiredState, live: map<string, JobInfo>, order: seq<string>,
                                            updateJob: JobInfo -> Result<UpdateJobInfo, Error>, restart: bool, now: Time, p: Progress)
    ensures UpdatePass(src, desired, live, order, updateJob, restart, now, p).Aborted? <==> UpdateFailsAlong(desired, order, updateJob)
    decreases |order|
  {
    if order != [] {
      assert forall i | 1 <= i < |order| :: order[i] == order[1..][i - 1];
      var step := UpdateOne(src, desired, live, order[0], updateJob, restart, now, p);
      if step.Ongoing? {
        UpdatePassAborts(src, desired, live, order[1..], updateJob, restart, now, step.progress);
      }
    }
  }

  /** Recording the first key's report and then the rest's is recording all of them. */
  lemma ReportedCons(src: Source, desired: DesiredState, updateJob: JobInfo -> Result<UpdateJobInfo, Error>, order: seq<string>,
                     create: map<string, JobInfo>, update: map<string, JobInfo>)
    requires order != [] && order[0] in desired.jobs && updateJob(desired.jobs[order[0]]).Success?
    ensures var k, info := order[0], updateJob(desired.jobs[order[0]]).value;
      && (if info.created then create[k := Changed(desired, updateJob, k)] else create) + CreatedJobs(desired, updateJob, order[1..])
           == create + CreatedJobs(desired, updateJob, order)
      && (if info.updated && !(info.created && src.paused) then update[k := Changed(desired, updateJob, k)] else update) + UpdatedJobs(src, desired, updateJob, order[1..])
           == update + UpdatedJobs(src, desired, updateJob, order)
  {
    CreatedCons(desired, updateJob, order, create);
    UpdatedCons(src, desired, updateJob, order, update);
  }

  lemma CreatedCons(desired: DesiredState, updateJob: JobInfo -> Result<UpdateJobInfo, Error>, order: seq<string>, create: map<string, JobInfo>)
    requires order != [] && order[0] in desired.jobs && updateJob(desired.jobs[order[0]]).Success?
    ensures var k, info := order[0], updateJob(desired.jobs[order[0]]).value;
      (if info.created then create[k := Changed(desired, updateJob, k)] else create) + CreatedJobs(desired, updateJob, order[1..])
        == create + CreatedJobs(desired, updateJob, order)
  {
    assert forall x :: x in order <==> x == order[0] || x in order[1..];
  }

  lemma UpdatedCons(src: Source, desired: DesiredState, updateJob: JobInfo -> Result<UpdateJobInfo, Error>, order: seq<string>, update: map<string, JobInfo>)
    requires order != [] && order[0] in desired.jobs && updateJob(desired.jobs[order[0]]).Success?
    ensures var k, info := order[0], updateJob(desired.jobs[order[0]]).value;
      (if info.updated && !(info.created && src.paused) then update[k := Changed(desired, updateJob, k)] else update) + UpdatedJobs(src, desired, updateJob, order[1..])
        == update + UpdatedJobs(src, desired, updateJob, order)
  {
    assert forall x :: x in order <==> x == order[0] || x in order[1..];
  }

  /** A completed update pass records in Create exactly the jobs reported created, and in Update exactly
      those reported updated (except, for a paused source, those also created); Delete and DryRun are kept. */
  lemma {:induction false} UpdatePassChanges(src: Source, desired: DesiredState, live: map<string, JobInfo>, order: seq<string>,
                                             updateJob: JobInfo -> Result<UpdateJobInfo, Error>, restart: bool, now: Time, p: Progress)
    ensures UpdatePass(src, desired, live, order, updateJob, restart, now, p).Ongoing? ==>
      UpdatePass(src, desired, live, order, updateJob, restart, now, p).progress.changes == p.changes.(
        create := p.changes.create + CreatedJobs(desired, updateJob, order),
        update := p.changes.update + UpdatedJobs(src, desired, updateJob, order))
    decreases |order|
  {
    if order == [] {
      assert p.changes.create + CreatedJobs(desired, updateJob, order) == p.changes.create;
      assert p.changes.update + UpdatedJobs(src, desired, updateJob, order) == p.changes.update;
    } else {
      var k := order[0];
      var step := UpdateOne(src, desired, live, k, updateJob, restart, now, p);
      if step.Ongoing? {
        UpdatePassChanges(src, desired, live, order[1..], updateJob, restart, now, step.progress);
        if k in desired.jobs {
          ReportedCons(src, desired, updateJob, order, p.changes.create, p.changes.update);
        } else {
          assert CreatedJobs(desired, updateJob, order[1..]) == CreatedJobs(desired, updateJob, order);
          assert UpdatedJobs(src, desired, updateJob, order[1..]) == UpdatedJobs(src, desired, updateJob, order);
        }
      }
    }
  }

  /** A completed update pass changes the status's job entries and last-update time only. */
  lemma {:induction false} UpdatePassStatusRest(src: Source, desired: DesiredState, live: map<string, JobInfo>, order: seq<string>,
                                                updateJob: JobInfo -> Result<UpdateJobInfo, Error>, restart: bool, now: Time, p: Progress)
    ensures UpdatePass(src, desired, live, order, updateJob, restart, now, p).Ongoing? ==>
      UpdatePass(src, desired, live, order, updateJob, restart, now, p).progress.status.(jobs := p.status.jobs, lastUpdateTime := p.status.lastUpdateTime) == p.status
    decreases |order|
  {
    if order != [] {
      var step := UpdateOne(src, desired, live, order[0], updateJob, restart, now, p);
      if step.Ongoing? {
        UpdatePassStatusRest(src, desired, live, order[1..], updateJob, restart, now, step.progress);
      }
    }
  }

  /** A completed update pass adds one status entry per desired job, keyed by the job's name. */
  lemma {:induction false} UpdatePassStatusKeys(src: Source, desired: DesiredState, live: map<string, JobInfo>, order: seq<string>,
                                                updateJob: JobInfo -> Result<UpdateJobInfo, Error>, restart: bool, now: Time, p: Progress)
    ensures UpdatePass(src, desired, live, order, updateJob, restart, now, p).Ongoing? ==>
      UpdatePass(src, desired, live, order, updateJob, restart, now, p).progress.status.jobs.Keys == p.status.jobs.Keys + StatusNames(desired, updateJob, order)
    decreases |order|
  {
    if order != [] {
      var step := UpdateOne(src, desired, live, order[0], updateJob, restart, now, p);
      if step.Ongoing? {
        UpdatePassStatusKeys(src, desired, live, order[1..], updateJob, restart, now, step.progress);
        StatusNamesCons(desired, updateJob, order);
      }
    }
  }

  /** A completed update pass sets the last-update time exactly when some job was reported created or
      updated, even for a paused source. */
  lemma {:induction false} UpdatePassStatusTime(src: Source, desired: DesiredState, live: map<string, JobInfo>, order: seq<string>,
                                                updateJob: JobInfo -> Result<UpdateJobInfo, Error>, restart: bool, now: Time, p: Progress)
    ensures UpdatePass(src, desired, live, order, updateJob, restart, now, p).Ongoing? ==>
      UpdatePass(src, desired, live, order, updateJob, restart, now, p).progress.status.lastUpdateTime ==
        (if exists i | 0 <= i < |order| :: Reported(desired, updateJob, order[i], true, false) || Reported(desired, updateJob, order[i], false, true)
         then ToTimePtr(now) else p.status.lastUpdateTime)
    decreases |order|
  {
    if order != [] {
      assert forall i | 1 <= i < |order| :: order[i] == order[1..][i - 1];
      var step := UpdateOne(src, desired, live, order[0], updateJob, restart, now, p);
      if step.Ongoing? {
        UpdatePassStatusTime(src, desired, live, order[1..], updateJob, restart, now, step.progress);
      }
    }
  }

  /** `st` is the status entry of desired job `k` as its UpdateJob call left it, with the deployment status
      that call reported, filed under name `n`. */
  predicate EntryFor(desired: DesiredState, live: map<string, JobInfo>, updateJob: JobInfo -> Result<UpdateJobInfo, Error>,
                     k: string, n: string, st: JobStatus) {
    && Reported(desired, updateJob, k, false, false) && JobName(Changed(desired, updateJob, k)) == n
    && st == JobStatusOf(Changed(desired, updateJob, k), live, k, updateJob(desired.jobs[k]).value.deploymentStatus)
  }

  /** After a completed update pass every status entry is one it started with or the entry of a desired job
      it visited. */
  lemma {:induction false} UpdatePassStatusEntries(src: Source, desired: DesiredState, live: map<string, JobInfo>, order: seq<string>,
                                                   updateJob: JobInfo -> Result<UpdateJobInfo, Error>, restart: bool, now: Time, p: Progress)
    ensures UpdatePass(src, desired, live, order, updateJob, restart, now, p).Ongoing? ==>
      forall n | n in UpdatePass(src, desired, live, order, updateJob, restart, now, p).progress.status.jobs ::
        || (n in p.status.jobs && UpdatePass(src, desired, live, order, updateJob, restart, now, p).progress.status.jobs[n] == p.status.jobs[n])
        || exists i | 0 <= i < |order| ::
             EntryFor(desired, live, updateJob, order[i], n, UpdatePass(src, desired, live, order, updateJob, restart, now, p).progress.status.jobs[n])
    decreases |order|
  {
    if order != [] {
      var step := UpdateOne(src, desired, live, order[0], updateJob, restart, now, p);
      if step.Ongoing? {
        UpdatePassStatusEntries(src, desired, live, order[1..], updateJob, restart, now, step.progress);
        UpdateOneStatusEntries(src, desired, live, order[0], updateJob, restart, now, p);
        var r := UpdatePass(src, desired, live, order[1..], updateJob, restart, now, step.progress);
        if r.Ongoing? {
          EntriesCons(desired, live, updateJob, order, p.status.jobs, step.progress.status.jobs, r.progress.status.jobs);
        }
      }
    }
  }

  /** Entries kept from `mid` or made by `order[1..]`, where `mid`'s are kept from `before` or made by
      `order[0]`, are kept from `before` or made by `order`. */
  lemma EntriesCons(desired: DesiredState, live: map<string, JobInfo>, updateJob: JobInfo -> Result<UpdateJobInfo, Error>,
                    order: seq<string>, before: map<string, JobStatus>, mid: map<string, JobStatus>, after: map<string, JobStatus>)
    requires order != []
    requires forall n | n in mid :: (n in before && mid[n] == before[n]) || EntryFor(desired, live, updateJob, order[0], n, mid[n])
    requires forall n | n in after ::
      || (n in mid && after[n] == mid[n])
      || exists i | 0 <= i < |order[1..]| :: EntryFor(desired, live, updateJob, order[1..][i], n, after[n])
    ensures forall n | n in after ::
      || (n in before && after[n] == before[n])
      || exists i | 0 <= i < |order| :: EntryFor(desired, live, updateJob, order[i], n, after[n])
  {
    forall n | n in after
      ensures || (n in before && after[n] == before[n])
              || exists i | 0 <= i < |order| :: EntryFor(desired, live, updateJob, order[i], n, after[n])
    {
      if n in mid && after[n] == mid[n] {
        if !(n in before && after[n] == before[n]) {
          assert EntryFor(desired, live, updateJob, order[0], n, after[n]);
        }
      } else {
        var i :| 0 <= i < |order[1..]| && EntryFor(desired, live, updateJob, order[1..][i], n, after[n]);
        assert order[i + 1] == order[1..][i];
      }
    }
  }

  /** After one iteration every status entry is one it started with or the entry of job `k`. */
  lemma UpdateOneStatusEntries(src: Source, desired: DesiredState, live: map<string, JobInfo>, k: string,
                               updateJob: JobInfo -> Result<UpdateJobInfo, Error>, restart: bool, now: Time, p: Progress)
    requires UpdateOne(src, desired, live, k, updateJob, restart, now, p).Ongoing?
    ensures forall n | n in UpdateOne(src, desired, live, k, updateJob, restart, now, p).progress.status.jobs ::
      || (n in p.status.jobs && UpdateOne(src, desired, live, k, updateJob, restart, now, p).progress.status.jobs[n] == p.status.jobs[n])
      || EntryFor(desired, live, updateJob, k, n, UpdateOne(src, desired, live, k, updateJob, restart, now, p).progress.status.jobs[n])
  {
  }

  lemma StatusNamesCons(desired: DesiredState, updateJob: JobInfo -> Result<UpdateJobInfo, Error>, order: seq<string>)
    requires order != []
    ensures StatusNames(desired, updateJob, order) ==
      (if Reported(desired, updateJob, order[0], false, false) then {JobName(Changed(desired, updateJob, order[0]))} else {}) + StatusNames(desired, updateJob, order[1..])
  {
    assert forall i | 1 <= i < |order| :: order[i] == order[1..][i - 1];
    forall n | n in StatusNames(desired, updateJob, order[1..]) ensures n in StatusNames(desired, updateJob, order) {
      var i :| 0 <= i < |order[1..]| && Reported(desired, updateJob, order[1..][i], false, false) && n == JobName(Changed(desired, updateJob, order[1..][i]));
      assert order[i + 1] == order[1..][i];
    }
  }

  /** A sequence keeps its members in every extension. */
  lemma ExtendsKeeps(before: seq<Effect>, after: seq<Effect>, e: Effect)
    requires Extends(before, after) && e in before
    ensures e in after
  {
    var j :| 0 <= j < |before| && before[j] == e;
    assert after[..|before|][j] == after[j];
  }

  /** A completed update pass called UpdateJob for every desired job. */
  lemma {:induction false} UpdatePassCalls(src: Source, desired: DesiredState, live: map<string, JobInfo>, order: seq<string>,
                                           updateJob: JobInfo -> Result<UpdateJobInfo, Error>, restart: bool, now: Time, p: Progress)
    ensures UpdatePass(src, desired, live, order, updateJob, restart, now, p).Ongoing? ==>
      forall i | 0 <= i < |order| && order[i] in desired.jobs ::
        UpdateCall(order[i]) in UpdatePass(src, desired, live, order, updateJob, restart, now, p).progress.effects
    decreases |order|
  {
    if order != [] {
      assert forall i | 1 <= i < |order| :: order[i] == order[1..][i - 1];
      var k := order[0];
      var step := UpdateOne(src, desired, live, k, updateJob, restart, now, p);
      if step.Ongoing? {
        UpdatePassCalls(src, desired, live, order[1..], updateJob, restart, now, step.progress);
        var r := UpdatePass(src, desired, live, order[1..], updateJob, restart, now, step.progress);
        if r.Ongoing? && k in desired.jobs {
          UpdateOneCalls(src, desired, live, k, updateJob, restart, now, p);
          ExtendsKeeps(step.progress.effects, r.progress.effects, UpdateCall(k));
        }
      }
    }
  }

  /** An iteration over a desired job that did not abort called UpdateJob for it. */
  lemma UpdateOneCalls(src: Source, desired: DesiredState, live: map<string, JobInfo>, k: string,
                       updateJob: JobInfo -> Result<UpdateJobInfo, Error>, restart: bool, now: Time, p: Progress)
    requires k in desired.jobs && UpdateOne(src, desired, live, k, updateJob, restart, now, p).Ongoing?
    ensures UpdateCall(k) in UpdateOne(src, desired, live, k, updateJob, restart, now, p).progress.effects
  {
    UpdateOneSuccessEffects(src, desired, live, k, updateJob, restart, now, p);
    assert UpdateOne(src, desired, live, k, updateJob, restart, now, p).progress.effects[|p.effects|] == UpdateCall(k);
  }

  /** A completed update pass of a source that is not paused sent the success notification of every job
      reported updated. */
  lemma {:induction false} UpdatePassNotifies(src: Source, desired: DesiredState, live: map<string, JobInfo>, order: seq<string>,
                                              updateJob: JobInfo -> Result<UpdateJobInfo, Error>, restart: bool, now: Time, p: Progress)
    ensures UpdatePass(src, desired, live, order, updateJob, restart, now, p).Ongoing? && !src.paused ==>
      forall i | 0 <= i < |order| && Reported(desired, updateJob, order[i], false, true) ::
        NotifyCall(order[i], UpdateNotice(src, desired, Changed(desired, updateJob, order[i]), restart)) in UpdatePass(src, desired, live, order, updateJob, restart, now, p).progress.effects
    decreases |order|
  {
    if order != [] {
      assert forall i | 1 <= i < |order| :: order[i] == order[1..][i - 1];
      var k := order[0];
      var step := UpdateOne(src, desired, live, k, updateJob, restart, now, p);
      if step.Ongoing? {
        UpdatePassNotifies(src, desired, live, order[1..], updateJob, restart, now, step.progress);
        var r := UpdatePass(src, desired, live, order[1..], updateJob, restart, now, step.progress);
        if r.Ongoing? && !src.paused && Reported(desired, updateJob, k, false, true) {
          UpdateOneNotifies(src, desired, live, k, updateJob, restart, now, p);
          ExtendsKeeps(step.progress.effects, r.progress.effects, NotifyCall(k, UpdateNotice(src, desired, Changed(desired, updateJob, k), restart)));
        }
      }
    }
  }

  /** One iteration for a job reported updated, on a source that is not paused, sends its notification. */
  lemma UpdateOneNotifies(src: Source, desired: DesiredState, live: map<string, JobInfo>, k: string,
                          updateJob: JobInfo -> Result<UpdateJobInfo, Error>, restart: bool, now: Time, p: Progress)
    requires !src.paused && Reported(desired, updateJob, k, false, true)
    ensures UpdateOne(src, desired, live, k, updateJob, restart, now, p).Ongoing?
    ensures NotifyCall(k, UpdateNotice(src, desired, Changed(desired, updateJob, k), restart)) in UpdateOne(src, desired, live, k, updateJob, restart, now, p).progress.effects
  {
    var info := updateJob(desired.jobs[k]).value;
    var extra := [UpdateCall(k)] + ReportEffects(src, desired, k, Changed(desired, updateJob, k), info, restart);
    assert NotifyCall(k, UpdateNotice(src, desired, Changed(desired, updateJob, k), restart)) in extra;
    assert UpdateOne(src, desired, live, k, updateJob, restart, now, p).progress.effects == p.effects + extra;
  }

  // ---------------------------------------------------------------------------------------------
  // Failing calls.

  /** `e` is a cluster call that returned `err`. */
  predicate FailedCall(desired: DesiredState, live: map<string, JobInfo>, deleteJob: JobInfo -> Option<Error>,
                       updateJob: JobInfo -> Result<UpdateJobInfo, Error>, e: Effect, err: Error) {
    match e
    case DeleteCall(k) => k in live && deleteJob(live[k]) == Some(err)
    case UpdateCall(k) => k in desired.jobs && updateJob(desired.jobs[k]) == Failure(err)
    case _ => false
  }

  /** The last of `effects` is a cluster call that returned `err`. */
  predicate EndsWithFailedCall(desired: DesiredState, live: map<string, JobInfo>, deleteJob: JobInfo -> Option<Error>,
                               updateJob: JobInfo -> Result<UpdateJobInfo, Error>, effects: seq<Effect>, err: Error) {
    |effects| > 0 && FailedCall(desired, live, deleteJob, updateJob, effects[|effects| - 1], err)
  }

  /** An aborted deletion pass ends with the DeleteJob call whose error it returns. */
  lemma {:induction false} DeletionPassAbortsLast(src: Source, desired: DesiredState, live: map<string, JobInfo>, order: seq<string>,
                                                  deleteJob: JobInfo -> Option<Error>, updateJob: JobInfo -> Result<UpdateJobInfo, Error>,
                                                  now: Time, p: Progress)
    ensures var r := DeletionPass(src, desired, live, order, deleteJob, now, p);
      r.Aborted? ==> EndsWithFailedCall(desired, live, deleteJob, updateJob, r.effects, r.error)
    decreases |order|
  {
    if order != [] {
      var step := DeleteOne(src, desired, live, order[0], deleteJob, now, p);
      if step.Ongoing? {
        DeletionPassAbortsLast(src, desired, live, order[1..], deleteJob, updateJob, now, step.progress);
      }
    }
  }

  /** An aborted update pass ends with the UpdateJob call whose error it returns. */
  lemma {:induction false} UpdatePassAbortsLast(src: Source, desired: DesiredState, live: map<string, JobInfo>, order: seq<string>,
                                                deleteJob: JobInfo -> Option<Error>, updateJob: JobInfo -> Result<UpdateJobInfo, Error>,
                                                restart: bool, now: Time, p: Progress)
    ensures var r := UpdatePass(src, desired, live, order, updateJob, restart, now, p);
      r.Aborted? ==> EndsWithFailedCall(desired, live, deleteJob, updateJob, r.effects, r.error)
    decreases |order|
  {
    if order != [] {
      var k := order[0];
      var step := UpdateOne(src, desired, live, k, updateJob, restart, now, p);
      if step.Ongoing? {
        UpdatePassAbortsLast(src, desired, live, order[1..], deleteJob, updateJob, restart, now, step.progress);
      } else {
        assert step.effects[|step.effects| - 1] == UpdateCall(k);
        assert FailedCall(desired, live, deleteJob, updateJob, UpdateCall(k), step.error);
      }
    }
  }

  // ---------------------------------------------------------------------------------------------
  // OnReconcile.

  /** The result of one reconciliation: the status snapshot and change summary, or the error that
      stopped it, together with the collaborator calls made on the way. */
  datatype Outcome = Outcome(result: Result<(SourceStatus, ChangeInfo), Error>, effects: seq<Effect>)

  /** The state before the two passes: an empty synced status checked at `now`, and an empty change
      summary that is a dry run exactly when the source is paused. */
  function Initial(src: Source, now: Time): Progress {
    Progress(SourceStatus(map[], ToTimePtr(now), None, "", StatusSynced), ChangeInfo(src.paused, map[], map[], map[]), [])
  }

  /** OnReconcile. `cluster` is what GetCurrentClusterState returned, `liveOrder` and `desiredOrder` are the
      iteration orders of the live and desired job maps, `deleteJob` and `updateJob` the cluster's results,
      and `now` the clock. */
  function OnReconcile(src: Source, desired: DesiredState, restart: bool, cluster: Result<map<string, JobInfo>, Error>,
                       liveOrder: seq<string>, desiredOrder: seq<string>,
                       deleteJob: JobInfo -> Option<Error>, updateJob: JobInfo -> Result<UpdateJobInfo, Error>, now: Time): (r: Outcome)
    // A failing GetCurrentClusterState ends the reconciliation before any other call.
    ensures cluster.Failure? ==> r == Outcome(Failure(cluster.error), [])
  {
    match cluster
    case Failure(e) => Outcome(Failure(e), [])
    case Success(live) =>
      match DeletionPass(src, desired, live, liveOrder, deleteJob, now, Initial(src, now))
      case Aborted(e, effects) => Outcome(Failure(e), effects)
      case Ongoing(p) =>
        match UpdatePass(src, desired, live, desiredOrder, updateJob, restart, now, p)
        case Aborted(e, effects) => Outcome(Failure(e), effects)
        case Ongoing(q) => Outcome(Success((q.status, q.changes)), q.effects)
  }

  /** Some DeleteJob call a reconciliation of a source that is not paused would make fails. */
  predicate DeleteFails(src: Source, desired: DesiredState, live: map<string, JobInfo>, deleteJob: JobInfo -> Option<Error>) {
    !src.paused && exists k | k in live && DeletionCandidate(desired, live, k) :: deleteJob(live[k]).Some?
  }

  /** Some UpdateJob call fails. */
  predicate UpdateFails(desired: DesiredState, updateJob: JobInfo -> Result<UpdateJobInfo, Error>) {
    exists k | k in desired.jobs :: updateJob(desired.jobs[k]).Failure?
  }

  /** DeleteFails, read along the iteration order of the live jobs. */
  lemma DeleteFailsInOrder(src: Source, desired: DesiredState, live: map<string, JobInfo>, liveOrder: seq<string>,
                           deleteJob: JobInfo -> Option<Error>)
    requires Enumerates(liveOrder, live.Keys)
    ensures DeleteFails(src, desired, live, deleteJob) <==> DeleteFailsAlong(src, desired, live, liveOrder, deleteJob)
  {
    if DeleteFails(src, desired, live, deleteJob) {
      var k :| k in live && DeletionCandidate(desired, live, k) && deleteJob(live[k]).Some?;
      var i :| 0 <= i < |liveOrder| && liveOrder[i] == k;
    }
  }

  /** UpdateFails, read along the iteration order of the desired jobs. */
  lemma UpdateFailsInOrder(desired: DesiredState, desiredOrder: seq<string>, updateJob: JobInfo -> Result<UpdateJobInfo, Error>)
    requires Enumerates(desiredOrder, desired.jobs.Keys)
    ensures UpdateFails(desired, updateJob) <==> UpdateFailsAlong(desired, desiredOrder, updateJob)
  {
    if UpdateFails(desired, updateJob) {
      var k :| k in desired.jobs && updateJob(desired.jobs[k]).Failure?;
      var i :| 0 <= i < |desiredOrder| && desiredOrder[i] == k;
    }
  }

  /** A reconciliation fails exactly when GetCurrentClusterState, a DeleteJob or an UpdateJob call fails, and
      then returns that call's error with no status and no change summary. */
  lemma {:induction false} ReconcileFails(src: Source, desired: DesiredState, restart: bool, cluster: Result<map<string, JobInfo>, Error>,
                                          liveOrder: seq<string>, desiredOrder: seq<string>,
                                          deleteJob: JobInfo -> Option<Error>, updateJob: JobInfo -> Result<UpdateJobInfo, Error>, now: Time)
    requires cluster.Success? ==> Enumerates(liveOrder, cluster.value.Keys)
    requires Enumerates(desiredOrder, desired.jobs.Keys)
    ensures OnReconcile(src, desired, restart, cluster, liveOrder, desiredOrder, deleteJob, updateJob, now).result.Failure? <==>
      cluster.Failure? || DeleteFails(src, desired, cluster.value, deleteJob) || UpdateFails(desired, updateJob)
  {
    if cluster.Success? {
      var live := cluster.value;
      var p0 := Initial(src, now);
      DeletionPassAborts(src, desired, live, liveOrder, deleteJob, now, p0);
      DeleteFailsInOrder(src, desired, live, liveOrder, deleteJob);
      var step := DeletionPass(src, desired, live, liveOrder, deleteJob, now, p0);
      if step.Ongoing? {
        UpdatePassAborts(src, desired, live, desiredOrder, updateJob, restart, now, step.progress);
        UpdateFailsInOrder(desired, desiredOrder, updateJob);
      }
    }
  }

  /** A reconciliation that fails after GetCurrentClusterState succeeded ends with the DeleteJob or UpdateJob
      call that failed, and returns that call's error. */
  lemma ReconcileFailsOnLastCall(src: Source, desired: DesiredState, restart: bool, cluster: Result<map<string, JobInfo>, Error>,
                                 liveOrder: seq<string>, desiredOrder: seq<string>,
                                 deleteJob: JobInfo -> Option<Error>, updateJob: JobInfo -> Result<UpdateJobInfo, Error>, now: Time)
    ensures cluster.Success? && OnReconcile(src, desired, restart, cluster, liveOrder, desiredOrder, deleteJob, updateJob, now).result.Failure? ==>
      var r := OnReconcile(src, desired, restart, cluster, liveOrder, desiredOrder, deleteJob, updateJob, now);
      EndsWithFailedCall(desired, cluster.value, deleteJob, updateJob, r.effects, r.result.error)
  {
    if cluster.Success? {
      var live := cluster.value;
      var p0 := Initial(src, now);
      var r := OnReconcile(src, desired, restart, cluster, liveOrder, desiredOrder, deleteJob, updateJob, now);
      var step := DeletionPass(src, desired, live, liveOrder, deleteJob, now, p0);
      if step.Aborted? {
        DeletionPassAbortsLast(src, desired, live, liveOrder, deleteJob, updateJob, now, p0);
        assert r == Outcome(Failure(step.error), step.effects);
      } else {
        var step2 := UpdatePass(src, desired, live, desiredOrder, updateJob, restart, now, step.progress);
        UpdatePassAbortsLast(src, desired, live, desiredOrder, deleteJob, updateJob, restart, now, step.progress);
        if step2.Aborted? {
          assert r == Outcome(Failure(step2.error), step2.effects);
        }
      }
    }
  }

  /** The live jobs a reconciliation deletes: every deletion candidate. */
  function Deletions(desired: DesiredState, live: map<string, JobInfo>): map<string, JobInfo> {
    map k | k in live && DeletionCandidate(desired, live, k) :: live[k]
  }

  /** The desired jobs UpdateJob reported created. */
  function Creations(desired: DesiredState, updateJob: JobInfo -> Result<UpdateJobInfo, Error>): map<string, JobInfo> {
    map k | k in desired.jobs && Reported(desired, updateJob, k, true, false) :: Changed(desired, updateJob, k)
  }

  /** The desired jobs UpdateJob reported updated, except those also created on a paused source. */
  function Updates(src: Source, desired: DesiredState, updateJob: JobInfo -> Result<UpdateJobInfo, Error>): map<string, JobInfo> {
    map k | k in desired.jobs && Reported(desired, updateJob, k, false, true) && !(src.paused && updateJob(desired.jobs[k]).value.created) :: Changed(desired, updateJob, k)
  }

  /** Along an order enumerating the live jobs, the deleted jobs are all the deletion candidates. */
  lemma DeletionsAlongOrder(desired: DesiredState, live: map<string, JobInfo>, liveOrder: seq<string>)
    requires Enumerates(liveOrder, live.Keys)
    ensures map[] + DeletedJobs(desired, live, liveOrder) == Deletions(desired, live)
  {
  }

  /** Along an order enumerating the desired jobs, the created and updated jobs are all of them. */
  lemma ChangesAlongOrder(src: Source, desired: DesiredState, updateJob: JobInfo -> Result<UpdateJobInfo, Error>, desiredOrder: seq<string>)
    requires Enumerates(desiredOrder, desired.jobs.Keys)
    ensures map[] + CreatedJobs(desired, updateJob, desiredOrder) == Creations(desired, updateJob)
    ensures map[] + UpdatedJobs(src, desired, updateJob, desiredOrder) == Updates(src, desired, updateJob)
  {
  }

  /** A successful reconciliation's change summary: a dry run exactly when the source is paused, Delete holds
      exactly the deletion candidates, Create exactly the jobs reported created and Update exactly those
      reported updated, except that on a paused source a job reported both is only in Create. */
  lemma {:induction false} ReconcileChanges(src: Source, desired: DesiredState, restart: bool, cluster: Result<map<string, JobInfo>, Error>,
                                            liveOrder: seq<string>, desiredOrder: seq<string>,
                                            deleteJob: JobInfo -> Option<Error>, updateJob: JobInfo -> Result<UpdateJobInfo, Error>, now: Time)
    requires cluster.Success? ==> Enumerates(liveOrder, cluster.value.Keys)
    requires Enumerates(desiredOrder, desired.jobs.Keys)
    ensures OnReconcile(src, desired, restart, cluster, liveOrder, desiredOrder, deleteJob, updateJob, now).result.Success? ==>
      OnReconcile(src, desired, restart, cluster, liveOrder, desiredOrder, deleteJob, updateJob, now).result.value.1 ==
        ChangeInfo(src.paused, Creations(desired, updateJob), Deletions(desired, cluster.value), Updates(src, desired, updateJob))
  {
    if cluster.Success? {
      var live := cluster.value;
      var p0 := Initial(src, now);
      DeletionPassChanges(src, desired, live, liveOrder, deleteJob, now, p0);
      DeletionsAlongOrder(desired, live, liveOrder);
      var step := DeletionPass(src, desired, live, liveOrder, deleteJob, now, p0);
      if step.Ongoing? {
        var p := step.progress;
        assert p.changes == ChangeInfo(src.paused, map[], Deletions(desired, live), map[]);
        UpdatePassChanges(src, desired, live, desiredOrder, updateJob, restart, now, p);
        ChangesAlongOrder(src, desired, updateJob, desiredOrder);
        var step2 := UpdatePass(src, desired, live, desiredOrder, updateJob, restart, now, p);
        if step2.Ongoing? {
          assert step2.progress.changes == ChangeInfo(src.paused, Creations(desired, updateJob), Deletions(desired, live), Updates(src, desired, updateJob));
          assert OnReconcile(src, desired, restart, cluster, liveOrder, desiredOrder, deleteJob, updateJob, now).result.value.1 == step2.progress.changes;
        }
      }
    }
  }

  /** Delete only holds live jobs that are not desired; Create and Update only hold desired jobs, and a job
      reported both created and updated on a paused source is in Create and not in Update. */
  lemma ChangeKeys(src: Source, desired: DesiredState, live: map<string, JobInfo>, updateJob: JobInfo -> Result<UpdateJobInfo, Error>)
    ensures Deletions(desired, live).Keys <= live.Keys - desired.jobs.Keys
    ensures Creations(desired, updateJob).Keys <= desired.jobs.Keys
    ensures Updates(src, desired, updateJob).Keys <= desired.jobs.Keys
    ensures forall k | src.paused && Reported(desired, updateJob, k, true, true) ::
      k in Creations(desired, updateJob) && k !in Updates(src, desired, updateJob)
  {
  }

  /** The names of the desired jobs UpdateJob took, as the calls left them. */
  function ChangedNames(desired: DesiredState, updateJob: JobInfo -> Result<UpdateJobInfo, Error>): set<string> {
    set k | k in desired.jobs && Reported(desired, updateJob, k, false, false) :: JobName(Changed(desired, updateJob, k))
  }

  /** Along an order enumerating the desired jobs, the status keys are the names of all changed jobs. */
  lemma StatusNamesAll(desired: DesiredState, updateJob: JobInfo -> Result<UpdateJobInfo, Error>, desiredOrder: seq<string>)
    requires Enumerates(desiredOrder, desired.jobs.Keys)
    ensures StatusNames(desired, updateJob, desiredOrder) == ChangedNames(desired, updateJob)
  {
    forall k | k in desired.jobs && Reported(desired, updateJob, k, false, false)
      ensures JobName(Changed(desired, updateJob, k)) in StatusNames(desired, updateJob, desiredOrder)
    {
      var i :| 0 <= i < |desiredOrder| && desiredOrder[i] == k;
    }
  }

  /** A successful reconciliation's status is synced, checked at `now`, without a message, with one entry per
      desired job keyed by its name, and each entry is the one UpdateJob's report gives a desired job of that
      name. */
  lemma {:induction false} ReconcileStatus(src: Source, desired: DesiredState, restart: bool, cluster: Result<map<string, JobInfo>, Error>,
                                           liveOrder: seq<string>, desiredOrder: seq<string>,
                                           deleteJob: JobInfo -> Option<Error>, updateJob: JobInfo -> Result<UpdateJobInfo, Error>, now: Time)
    requires Enumerates(desiredOrder, desired.jobs.Keys)
    ensures OnReconcile(src, desired, restart, cluster, liveOrder, desiredOrder, deleteJob, updateJob, now).result.Success? ==>
      var st := OnReconcile(src, desired, restart, cluster, liveOrder, desiredOrder, deleteJob, updateJob, now).result.value.0;
      && st.status == StatusSynced
      && st.message == ""
      && st.lastCheckTime == ToTimePtr(now)
      && st.jobs.Keys == ChangedNames(desired, updateJob)
      && forall n | n in st.jobs :: exists k | k in desired.jobs :: EntryFor(desired, cluster.value, updateJob, k, n, st.jobs[n])
  {
    if cluster.Success? {
      var live := cluster.value;
      var p0 := Initial(src, now);
      DeletionPassStatus(src, desired, live, liveOrder, deleteJob, now, p0);
      var step := DeletionPass(src, desired, live, liveOrder, deleteJob, now, p0);
      if step.Ongoing? {
        var p := step.progress;
        UpdatePassStatusRest(src, desired, live, desiredOrder, updateJob, restart, now, p);
        UpdatePassStatusKeys(src, desired, live, desiredOrder, updateJob, restart, now, p);
        UpdatePassStatusEntries(src, desired, live, desiredOrder, updateJob, restart, now, p);
        StatusNamesAll(desired, updateJob, desiredOrder);
        var step2 := UpdatePass(src, desired, live, desiredOrder, updateJob, restart, now, p);
        if step2.Ongoing? {
          assert OnReconcile(src, desired, restart, cluster, liveOrder, desiredOrder, deleteJob, updateJob, now).result.value.0 == step2.progress.status;
        }
      }
    }
  }

  /** A successful reconciliation sets the last-update time exactly when it deleted a job (never on a paused
      source) or UpdateJob reported a job created or updated (also on a paused source). */
  lemma {:induction false} ReconcileUpdateTime(src: Source, desired: DesiredState, restart: bool, cluster: Result<map<string, JobInfo>, Error>,
                                               liveOrder: seq<string>, desiredOrder: seq<string>,
                                               deleteJob: JobInfo -> Option<Error>, updateJob: JobInfo -> Result<UpdateJobInfo, Error>, now: Time)
    requires cluster.Success? ==> Enumerates(liveOrder, cluster.value.Keys)
    requires Enumerates(desiredOrder, desired.jobs.Keys)
    ensures OnReconcile(src, desired, restart, cluster, liveOrder, desiredOrder, deleteJob, updateJob, now).result.Success? ==>
      OnReconcile(src, desired, restart, cluster, liveOrder, desiredOrder, deleteJob, updateJob, now).result.value.0.lastUpdateTime ==
        if || (!src.paused && exists k | k in cluster.value :: DeletionCandidate(desired, cluster.value, k))
           || (exists k | k in desired.jobs :: Reported(desired, updateJob, k, true, false) || Reported(desired, updateJob, k, false, true))
        then ToTimePtr(now) else None
  {
    if cluster.Success? {
      var live := cluster.value;
      var p0 := Initial(src, now);
      DeletionPassStatus(src, desired, live, liveOrder, deleteJob, now, p0);
      var step := DeletionPass(src, desired, live, liveOrder, deleteJob, now, p0);
      if step.Ongoing? {
        UpdatePassStatusTime(src, desired, live, desiredOrder, updateJob, restart, now, step.progress);
        assert (exists k | k in live :: DeletionCandidate(desired, live, k)) <==>
               exists i | 0 <= i < |liveOrder| :: DeletionCandidate(desired, live, liveOrder[i]) by {
          if exists k | k in live :: DeletionCandidate(desired, live, k) {
            var k :| k in live && DeletionCandidate(desired, live, k);
            var i :| 0 <= i < |liveOrder| && liveOrder[i] == k;
          }
        }
        assert (exists k | k in desired.jobs :: Reported(desired, updateJob, k, true, false) || Reported(desired, updateJob, k, false, true)) <==>
               exists i | 0 <= i < |desiredOrder| :: Reported(desired, updateJob, desiredOrder[i], true, false) || Reported(desired, updateJob, desiredOrder[i], false, true) by {
          if exists k | k in desired.jobs :: Reported(desired, updateJob, k, true, false) || Reported(desired, updateJob, k, false, true) {
            var k :| k in desired.jobs && (Reported(desired, updateJob, k, true, false) || Reported(desired, updateJob, k, false, true));
            var i :| 0 <= i < |desiredOrder| && desiredOrder[i] == k;
          }
        }
      }
    }
  }

  /** Every call a reconciliation makes after GetCurrentClusterState is a deletion-pass or an update-pass
      effect, whether or not it succeeds. */
  lemma {:induction false} ReconcileEffects(src: Source, desired: DesiredState, restart: bool, cluster: Result<map<string, JobInfo>, Error>,
                                            liveOrder: seq<string>, desiredOrder: seq<string>,
                                            deleteJob: JobInfo -> Option<Error>, updateJob: JobInfo -> Result<UpdateJobInfo, Error>, now: Time)
    ensures cluster.Success? ==>
      forall j | 0 <= j < |OnReconcile(src, desired, restart, cluster, liveOrder, desiredOrder, deleteJob, updateJob, now).effects| ::
        || DeletionEffect(src, desired, cluster.value, liveOrder, OnReconcile(src, desired, restart, cluster, liveOrder, desiredOrder, deleteJob, updateJob, now).effects[j])
        || UpdateEffect(src, desired, updateJob, desiredOrder, restart, OnReconcile(src, desired, restart, cluster, liveOrder, desiredOrder, deleteJob, updateJob, now).effects[j])
  {
    if cluster.Success? {
      var live := cluster.value;
      var p0 := Initial(src, now);
      DeletionPassEffects(src, desired, live, liveOrder, deleteJob, now, p0);
      var step := DeletionPass(src, desired, live, liveOrder, deleteJob, now, p0);
      if step.Ongoing? {
        var p := step.progress;
        UpdatePassEffects(src, desired, live, desiredOrder, updateJob, restart, now, p);
        var r := UpdatePass(src, desired, live, desiredOrder, updateJob, restart, now, p);
        forall j | 0 <= j < |r.Effects()|
          ensures DeletionEffect(src, desired, live, liveOrder, r.Effects()[j]) || UpdateEffect(src, desired, updateJob, desiredOrder, restart, r.Effects()[j])
        {
          if j < |p.effects| {
            assert r.Effects()[..|p.effects|][j] == r.Effects()[j];
          }
        }
      }
    }
  }

  /** A reconciliation of a paused source is a dry run: its only calls are UpdateJob's (which plans but does
      not register for a paused source); it deletes nothing, saves no event and sends no notification. */
  lemma {:induction false} PausedReconcileOnlyPlans(src: Source, desired: DesiredState, restart: bool, cluster: Result<map<string, JobInfo>, Error>,
                                                    liveOrder: seq<string>, desiredOrder: seq<string>,
                                                    deleteJob: JobInfo -> Option<Error>, updateJob: JobInfo -> Result<UpdateJobInfo, Error>, now: Time)
    requires src.paused
    ensures forall j | 0 <= j < |OnReconcile(src, desired, restart, cluster, liveOrder, desiredOrder, deleteJob, updateJob, now).effects| ::
      OnReconcile(src, desired, restart, cluster, liveOrder, desiredOrder, deleteJob, updateJob, now).effects[j].UpdateCall?
  {
    ReconcileEffects(src, desired, restart, cluster, liveOrder, desiredOrder, deleteJob, updateJob, now);
  }

  /** Only updates trigger a notification: every notification is the success notice of a desired job that
      UpdateJob reported updated, on a source that is not paused. */
  lemma {:induction false} NotificationsAreForUpdates(src: Source, desired: DesiredState, restart: bool, cluster: Result<map<string, JobInfo>, Error>,
                                                      liveOrder: seq<string>, desiredOrder: seq<string>,
                                                      deleteJob: JobInfo -> Option<Error>, updateJob: JobInfo -> Result<UpdateJobInfo, Error>, now: Time)
    ensures forall j | 0 <= j < |OnReconcile(src, desired, restart, cluster, liveOrder, desiredOrder, deleteJob, updateJob, now).effects| &&
                       OnReconcile(src, desired, restart, cluster, liveOrder, desiredOrder, deleteJob, updateJob, now).effects[j].NotifyCall? ::
      var e := OnReconcile(src, desired, restart, cluster, liveOrder, desiredOrder, deleteJob, updateJob, now).effects[j];
      !src.paused && Reported(desired, updateJob, e.key, false, true) && e.options == UpdateNotice(src, desired, Changed(desired, updateJob, e.key), restart)
  {
    ReconcileEffects(src, desired, restart, cluster, liveOrder, desiredOrder, deleteJob, updateJob, now);
  }

  /** A successful reconciliation called UpdateJob for every desired job and, for a source that is not
      paused, DeleteJob for every deletion candidate and the notifier for every job reported updated. */
  lemma {:induction false} ReconcileCalls(src: Source, desired: DesiredState, restart: bool, cluster: Result<map<string, JobInfo>, Error>,
                                          liveOrder: seq<string>, desiredOrder: seq<string>,
                                          deleteJob: JobInfo -> Option<Error>, updateJob: JobInfo -> Result<UpdateJobInfo, Error>, now: Time)
    requires cluster.Success? ==> Enumerates(liveOrder, cluster.value.Keys)
    requires Enumerates(desiredOrder, desired.jobs.Keys)
    ensures OnReconcile(src, desired, restart, cluster, liveOrder, desiredOrder, deleteJob, updateJob, now).result.Success? ==>
      forall k | k in desired.jobs :: UpdateCall(k) in OnReconcile(src, desired, restart, cluster, liveOrder, desiredOrder, deleteJob, updateJob, now).effects
    ensures OnReconcile(src, desired, restart, cluster, liveOrder, desiredOrder, deleteJob, updateJob, now).result.Success? && !src.paused ==>
      forall k | k in cluster.value && DeletionCandidate(desired, cluster.value, k) ::
        DeleteCall(k) in OnReconcile(src, desired, restart, cluster, liveOrder, desiredOrder, deleteJob, updateJob, now).effects
    ensures OnReconcile(src, desired, restart, cluster, liveOrder, desiredOrder, deleteJob, updateJob, now).result.Success? && !src.paused ==>
      forall k | Reported(desired, updateJob, k, false, true) ::
        NotifyCall(k, UpdateNotice(src, desired, Changed(desired, updateJob, k), restart)) in OnReconcile(src, desired, restart, cluster, liveOrder, desiredOrder, deleteJob, updateJob, now).effects
  {
    if cluster.Success? {
      var live := cluster.value;
      var p0 := Initial(src, now);
      DeletionPassDeletes(src, desired, live, liveOrder, deleteJob, now, p0);
      var step := DeletionPass(src, desired, live, liveOrder, deleteJob, now, p0);
      if step.Ongoing? {
        var p := step.progress;
        UpdatePassCalls(src, desired, live, desiredOrder, updateJob, restart, now, p);
        UpdatePassNotifies(src, desired, live, desiredOrder, updateJob, restart, now, p);
        var r := UpdatePass(src, desired, live, desiredOrder, updateJob, restart, now, p);
        if r.Ongoing? {
          forall k | k in desired.jobs ensures UpdateCall(k) in r.progress.effects {
            var i :| 0 <= i < |desiredOrder| && desiredOrder[i] == k;
          }
          if !src.paused {
            forall k | k in live && DeletionCandidate(desired, live, k) ensures DeleteCall(k) in r.progress.effects {
              var i :| 0 <= i < |liveOrder| && liveOrder[i] == k;
              ExtendsKeeps(p.effects, r.progress.effects, DeleteCall(k));
            }
            forall k | Reported(desired, updateJob, k, false, true)
              ensures NotifyCall(k, UpdateNotice(src, desired, Changed(desired, updateJob, k), restart)) in r.progress.effects
            {
              var i :| 0 <= i < |desiredOrder| && desiredOrder[i] == k;
            }
          }
        }
      }
    }
  }
}
