/** The Nomad client's decision logic (backend/interfaces/nomadcluster/client.go): namespace/region
    precedence, the metadata stamps and registration gate of UpdateJob, and the ownership filter of
    GetCurrentClusterState. The Nomad API (namespace registration, plan, latest deployment, register,
    list, info), strconv.Atoi and the clock are parameters. */
module NomadClient {
  import opened Wrappers
  import opened Text
  import opened Errors
  import opened Nomad
  import opened Domain
  import opened Application
  import opened Scaling
  import opened ChangeDecision

  /** The namespace and region sent with a request; "" leaves the option unset. */
  datatype RequestOptions = RequestOptions(namespace: string, region: string)

  /** getQueryOptsCtx and getWriteOptions, whose bodies are the same: the job's non-empty namespace and
      region first, then the source's non-empty values on top. */
  function ResolveOptions(src: Source, job: Option<Job>): (r: RequestOptions)
    ensures src.namespace != "" ==> r.namespace == src.namespace
    ensures src.namespace == "" && job.Some? ==> r.namespace == job.value.namespace.GetOr("")
    ensures src.namespace == "" && job.None? ==> r.namespace == ""
    ensures src.region != "" ==> r.region == src.region
    ensures src.region == "" && job.Some? ==> r.region == job.value.region.GetOr("")
    ensures src.region == "" && job.None? ==> r.region == ""
  {
    var opts := RequestOptions("", "");
    var opts := if job.Some? && job.value.namespace.Some? && job.value.namespace.value != "" then opts.(namespace := job.value.namespace.value) else opts;
    var opts := if job.Some? && job.value.region.Some? && job.value.region.value != "" then opts.(region := job.value.region.value) else opts;
    var opts := if src.namespace != "" then opts.(namespace := src.namespace) else opts;
    if src.region != "" then opts.(region := src.region) else opts
  }

  /** The resolved namespace is unset exactly when neither the source nor the job names one. */
  lemma NamespaceUnsetIff(src: Source, job: Job)
    ensures ResolveOptions(src, Some(job)).namespace == "" <==> src.namespace == "" && job.namespace.GetOr("") == ""
  {
  }

  /** Only namespace and region matter: a job differing in anything else resolves to the same options. */
  lemma OptionsDependOnlyOnPlacement(src: Source, job: Job, job': Job)
    requires job.namespace == job'.namespace && job.region == job'.region
    ensures ResolveOptions(src, Some(job)) == ResolveOptions(src, Some(job'))
  {
  }

  // ---------------------------------------------------------------------------------------------
  // UpdateJob.

  /** The ownership stamps written into a job's metadata before planning. */
  function StampMeta(meta: map<string, string>, src: Source, commit: string, restart: bool, now: string): (r: map<string, string>)
    ensures MetaKeyOps in r && r[MetaKeyOps] == "true"
    ensures MetaKeySrcUrl in r && r[MetaKeySrcUrl] == src.url
    ensures MetaKeySrcID in r && r[MetaKeySrcID] == src.id
    ensures MetaKeySrcCommit in r && r[MetaKeySrcCommit] == commit
    ensures restart ==> MetaKeyForceRestart in r && r[MetaKeyForceRestart] == now
    ensures !restart ==> (MetaKeyForceRestart in r <==> MetaKeyForceRestart in meta)
    ensures !restart && MetaKeyForceRestart in meta ==> r[MetaKeyForceRestart] == meta[MetaKeyForceRestart]
    ensures r.Keys == meta.Keys + {MetaKeyOps, MetaKeySrcUrl, MetaKeySrcID, MetaKeySrcCommit} + (if restart then {MetaKeyForceRestart} else {})
    ensures forall k | k in meta && k !in {MetaKeyOps, MetaKeySrcUrl, MetaKeySrcID, MetaKeySrcCommit, MetaKeyForceRestart} :: r[k] == meta[k]
  {
    var m := meta[MetaKeyOps := "true"][MetaKeySrcUrl := src.url][MetaKeySrcID := src.id][MetaKeySrcCommit := commit];
    if restart then m[MetaKeyForceRestart := now] else m
  }

  /** The job as planned: its metadata stamped for the source and commit. */
  function StampedJob(src: Source, info: JobInfo, restart: bool, now: string): Job {
    info.job.(meta := StampMeta(info.job.meta, src, info.gitInfo.gitCommit, restart, now))
  }

  /** A Nomad API call made by UpdateJob, with the job it sends. */
  datatype ApiCall =
    | RegisterNamespace(name: string)
    | Plan(job: Job, options: RequestOptions)
    | LatestDeployment(options: RequestOptions)
    | Register(job: Job, options: RequestOptions)

  /** The job and diff on which the change decision was taken, and that decision. */
  datatype Decision = Decision(job: Job, diff: JobDiff, changed: bool)

  /** What UpdateJob returns, the calls it made in order, and the decision it reached (None when it
      returned an error before deciding). */
  datatype UpdateOutcome = UpdateOutcome(result: Result<UpdateJobInfo, Error>, calls: seq<ApiCall>, decision: Option<Decision>)

  const ErrNamespaceRequired := Simple("require a namespace to be set in conjunction with 'CreateNamespace'")

  /** Whether a LatestDeployment error is tolerated: its lower-cased message mentions "not found". */
  predicate DeploymentNotFound(e: Error) {
    Contains(ToLower(Message(e)), "not found")
  }

  predicate Registers(calls: seq<ApiCall>) {
    exists i | 0 <= i < |calls| :: calls[i].Register?
  }

  /** UpdateJob. `nsRegister`, `plan`, `latest` and `register` are the results of the Nomad API calls
      (`latest` is the latest deployment's status, None when there is none); `now` is the restart stamp. */
  function UpdateJob(
    src: Source, info: JobInfo, restart: bool,
    nsRegister: Option<Error>,
    plan: Job -> Result<JobDiff, Error>,
    latest: Result<Option<string>, Error>,
    register: Job -> Option<Error>,
    parse: string -> Option<int>,
    now: string): (o: UpdateOutcome)
    // CreateNamespace without any namespace fails before any API call.
    ensures src.createNamespace && ResolveOptions(src, Some(info.job)).namespace == "" ==>
      o.result == Failure(ErrNamespaceRequired) && o.calls == []
    // What gets planned is the stamped job, with the resolved options.
    ensures |o.calls| > 0 && !src.createNamespace ==> o.calls[0] == Plan(StampedJob(src, info, restart, now), ResolveOptions(src, Some(info.job)))
    // The decision is taken on the stamped job after the autoscaler copy-back, against the planned diff.
    ensures o.decision.Some? ==>
      && plan(StampedJob(src, info, restart, now)) == Success(o.decision.value.diff)
      && o.decision.value.job == CopyExistingAutoScalerChanges(StampedJob(src, info, restart, now), o.decision.value.diff, parse)
      && o.decision.value.changed == HasUpdate(o.decision.value.job, o.decision.value.diff, restart, src.force)
    // A decision is reached exactly when namespace, plan and deployment lookup all went through.
    ensures o.decision.Some? <==>
      && !(src.createNamespace && (ResolveOptions(src, Some(info.job)).namespace == "" || nsRegister.Some?))
      && plan(StampedJob(src, info, restart, now)).Success?
      && (latest.Failure? ==> DeploymentNotFound(latest.error))
    // Registration happens exactly when there is an update and the source is not paused, and it sends
    // the decided job.
    ensures Registers(o.calls) <==> o.decision.Some? && o.decision.value.changed && !src.paused
    ensures forall i | 0 <= i < |o.calls| && o.calls[i].Register? :: o.calls[i].job == o.decision.value.job
    // On success: Updated is the decision, Created is never set, and the status is the deployment's.
    ensures o.result.Success? <==> o.decision.Some? && !(Registers(o.calls) && register(o.decision.value.job).Some?)
    ensures o.result.Success? ==>
      && o.result.value.updated == o.decision.value.changed
      && !o.result.value.created
      && o.result.value.deploymentStatus == (if latest.Success? && latest.value.Some? then latest.value.value else "")
    // The caller's job is left stamped and copied back: it is the job the decision was taken on.
    ensures o.result.Success? ==> o.result.value.job == o.decision.value.job
  {
    var opts := ResolveOptions(src, Some(info.job));
    if src.createNamespace && opts.namespace == "" then
      UpdateOutcome(Failure(ErrNamespaceRequired), [], None)
    else
      var calls := if src.createNamespace then [RegisterNamespace(opts.namespace)] else [];
      if src.createNamespace && nsRegister.Some? then
        UpdateOutcome(Failure(nsRegister.value), calls, None)
      else
        var job := StampedJob(src, info, restart, now);
        var calls := calls + [Plan(job, opts)];
        match plan(job)
        case Failure(e) => UpdateOutcome(Failure(e), calls, None)
        case Success(diff) =>
          var job := CopyExistingAutoScalerChanges(job, diff, parse);
          var calls := calls + [LatestDeployment(opts)];
          if latest.Failure? && !DeploymentNotFound(latest.error) then
            UpdateOutcome(Failure(latest.error), calls, None)
          else
            var status := if latest.Success? && latest.value.Some? then latest.value.value else "";
            Conclude(src, restart, job, diff, status, register, opts, calls)
  }

  /** A successful UpdateJob leaves the caller's job claimed for the source and carrying the live
      autoscaler values: its metadata is the stamp, its task groups are the copied-back ones, and
      everything else about it (name, type, ID) is as it was. */
  lemma UpdateJobLeavesJobStamped(
    src: Source, info: JobInfo, restart: bool, nsRegister: Option<Error>, plan: Job -> Result<JobDiff, Error>,
    latest: Result<Option<string>, Error>, register: Job -> Option<Error>, parse: string -> Option<int>, now: string)
    ensures var o := UpdateJob(src, info, restart, nsRegister, plan, latest, register, parse, now);
      o.result.Success? ==>
        && o.result.value.job.(meta := info.job.meta, taskGroups := info.job.taskGroups) == info.job
        && o.result.value.job.meta == StampMeta(info.job.meta, src, info.gitInfo.gitCommit, restart, now)
        && o.result.value.job.meta[MetaKeySrcID] == src.id
        && o.result.value.job == CopyExistingAutoScalerChanges(StampedJob(src, info, restart, now), o.decision.value.diff, parse)
  {
  }

  /** The end of UpdateJob once the plan diff and deployment status are known: decide, then register
      unless the source is paused. */
  function Conclude(
    src: Source, restart: bool, job: Job, diff: JobDiff, status: string,
    register: Job -> Option<Error>, opts: RequestOptions, calls: seq<ApiCall>): (o: UpdateOutcome)
    requires !Registers(calls)
    ensures o.decision == Some(Decision(job, diff, HasUpdate(job, diff, restart, src.force)))
    ensures Registers(o.calls) <==> o.decision.value.changed && !src.paused
    ensures forall i | 0 <= i < |o.calls| && o.calls[i].Register? :: o.calls[i].job == job
    ensures o.result.Success? <==> !(Registers(o.calls) && register(job).Some?)
    ensures o.result.Success? ==>
      o.result.value == UpdateJobInfo(o.decision.value.changed, false, status, job)
  {
    var changed := HasUpdate(job, diff, restart, src.force);
    var decision := Some(Decision(job, diff, changed));
    if !changed then
      UpdateOutcome(Success(UpdateJobInfo(false, false, status, job)), calls, decision)
    else if src.paused then
      UpdateOutcome(Success(UpdateJobInfo(true, false, status, job)), calls, decision)
    else
      var calls := calls + [Register(job, opts)];
      assert calls[|calls| - 1].Register?;
      match register(job)
      case Some(e) => UpdateOutcome(Failure(e), calls, decision)
      case None => UpdateOutcome(Success(UpdateJobInfo(true, false, status, job)), calls, decision)
  }

  // ---------------------------------------------------------------------------------------------
  // GetCurrentClusterState.

  /** A listed job belongs to the source: it has metadata and its `nomadopssrcid` is the source ID. */
  predicate Owned(stub: JobStub, srcID: string) {
    |stub.meta| > 0 && MetaGet(stub.meta, MetaKeySrcID) == srcID
  }

  /** The names of the owned entries of a job listing. */
  function OwnedNames(stubs: seq<JobStub>, srcID: string): set<string> {
    set i | 0 <= i < |stubs| && Owned(stubs[i], srcID) :: stubs[i].name
  }

  lemma OwnedNamesSnoc(stubs: seq<JobStub>, srcID: string)
    requires |stubs| > 0
    ensures var last := stubs[|stubs| - 1];
      OwnedNames(stubs, srcID) == OwnedNames(stubs[..|stubs| - 1], srcID) + (if Owned(last, srcID) then {last.name} else {})
  {
    var init := stubs[..|stubs| - 1];
    assert forall i | 0 <= i < |init| :: init[i] == stubs[i];
    forall n | n in OwnedNames(stubs, srcID)
      ensures n in OwnedNames(init, srcID) || (Owned(stubs[|stubs| - 1], srcID) && n == stubs[|stubs| - 1].name)
    {
      var i :| 0 <= i < |stubs| && Owned(stubs[i], srcID) && stubs[i].name == n;
      if i < |init| {
        assert n in OwnedNames(init, srcID);
      }
    }
    forall n | n in OwnedNames(init, srcID) ensures n in OwnedNames(stubs, srcID) {
      var i :| 0 <= i < |init| && Owned(init[i], srcID) && init[i].name == n;
      assert stubs[i] == init[i];
    }
    if Owned(stubs[|stubs| - 1], srcID) {
      assert stubs[|stubs| - 1].name in OwnedNames(stubs, srcID);
    }
  }

  /** The ownership filter: each owned listed job is fetched with `info` and keyed by name (a later entry
      of the same name wins); the first failing fetch fails the whole call. */
  function OwnedJobs(stubs: seq<JobStub>, srcID: string, info: JobStub -> Result<Job, Error>): (r: Result<map<string, JobInfo>, Error>)
    ensures r.Success? ==> r.value.Keys == OwnedNames(stubs, srcID)
  {
    if stubs == [] then Success(map[])
    else
      var init := stubs[..|stubs| - 1];
      var last := stubs[|stubs| - 1];
      assert forall i | 0 <= i < |init| :: init[i] == stubs[i];
      OwnedNamesSnoc(stubs, srcID);
      var prefix := OwnedJobs(init, srcID, info);
      if prefix.Failure? then prefix
      else if !Owned(last, srcID) then prefix
      else match info(last)
        case Failure(e) => Failure(e)
        case Success(j) => Success(prefix.value[last.name := JobInfo(GitInfo(""), j)])
  }

  /** The filter fails exactly when fetching some owned job fails. */
  lemma {:induction false} OwnedJobsFailure(stubs: seq<JobStub>, srcID: string, info: JobStub -> Result<Job, Error>)
    ensures OwnedJobs(stubs, srcID, info).Failure? <==> exists i | 0 <= i < |stubs| :: Owned(stubs[i], srcID) && info(stubs[i]).Failure?
  {
    if stubs != [] {
      var init := stubs[..|stubs| - 1];
      assert forall i | 0 <= i < |init| :: init[i] == stubs[i];
      OwnedJobsFailure(init, srcID, info);
    }
  }

  /** Each job in the cluster state is what `info` fetched for an owned listing entry of that name. */
  lemma {:induction false} OwnedJobsFetched(stubs: seq<JobStub>, srcID: string, info: JobStub -> Result<Job, Error>, name: string)
    requires OwnedJobs(stubs, srcID, info).Success? && name in OwnedJobs(stubs, srcID, info).value
    ensures exists i | 0 <= i < |stubs| ::
      Owned(stubs[i], srcID) && stubs[i].name == name && info(stubs[i]) == Success(OwnedJobs(stubs, srcID, info).value[name].job)
  {
    var init := stubs[..|stubs| - 1];
    var last := stubs[|stubs| - 1];
    assert forall i | 0 <= i < |init| :: init[i] == stubs[i];
    if !(Owned(last, srcID) && last.name == name) {
      OwnedJobsFetched(init, srcID, info, name);
    }
  }

  /** GetCurrentClusterState: a failed listing fails; otherwise the owned jobs. */
  function GetCurrentClusterState(src: Source, list: Result<seq<JobStub>, Error>, info: JobStub -> Result<Job, Error>): (r: Result<map<string, JobInfo>, Error>)
    ensures list.Failure? ==> r == Failure(list.error)
    ensures list.Success? ==> r == OwnedJobs(list.value, src.id, info)
  {
    var stubs :- list;
    OwnedJobs(stubs, src.id, info)
  }

  /** Jobs without metadata, or stamped for another source, are never part of the cluster state. */
  lemma ForeignJobsAreIgnored(stubs: seq<JobStub>, srcID: string, info: JobStub -> Result<Job, Error>, name: string)
    requires forall i | 0 <= i < |stubs| && stubs[i].name == name :: MetaGet(stubs[i].meta, MetaKeySrcID) != srcID
    ensures OwnedJobs(stubs, srcID, info).Success? ==> name !in OwnedJobs(stubs, srcID, info).value
  {
  }

  /** Cross-check with UpdateJob: a job registered by UpdateJob carries the ownership stamp the filter
      looks for. */
  lemma RegisteredJobsAreOwned(
    src: Source, info: JobInfo, restart: bool, nsRegister: Option<Error>, plan: Job -> Result<JobDiff, Error>,
    latest: Result<Option<string>, Error>, register: Job -> Option<Error>, parse: string -> Option<int>, now: string, i: nat)
    requires var o := UpdateJob(src, info, restart, nsRegister, plan, latest, register, parse, now);
      i < |o.calls| && o.calls[i].Register?
    ensures var j := UpdateJob(src, info, restart, nsRegister, plan, latest, register, parse, now).calls[i].job;
      Owned(JobStub(j.name.GetOr(""), j.namespace.GetOr(""), j.meta), src.id)
  {
    var o := UpdateJob(src, info, restart, nsRegister, plan, latest, register, parse, now);
    var stamped := StampedJob(src, info, restart, now);
    assert o.calls[i].job == CopyExistingAutoScalerChanges(stamped, o.decision.value.diff, parse);
    assert o.calls[i].job.meta == stamped.meta;
  }
}
