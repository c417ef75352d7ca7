/** Value types of the application layer (backend/application): job provenance, desired and
    cluster state, the reconciler's change summary, and notification options. */
module Application {
  import opened Wrappers
  import opened Nomad
  import opened Domain

  datatype GitInfo = GitInfo(gitCommit: string)

  /** A job with the commit it was read at. */
  datatype JobInfo = JobInfo(gitInfo: GitInfo, job: Job)

  datatype DesiredState = DesiredState(gitInfo: GitInfo, jobs: map<string, JobInfo>)

  /** What the cluster reports for one UpdateJob call. `job` is the caller's job as the call leaves it:
      UpdateJob writes its metadata stamp and the autoscaler copy-back into the JobInfo it is handed, and
      the caller goes on reading that same job. */
  datatype UpdateJobInfo = UpdateJobInfo(updated: bool, created: bool, deploymentStatus: string, job: Job)

  /** Planned or applied changes of one reconciliation; `dryRun` when the source is paused. */
  datatype ChangeInfo = ChangeInfo(
    dryRun: bool,
    create: map<string, JobInfo>,
    delete: map<string, JobInfo>,
    update: map<string, JobInfo>)

  datatype NotificationType = NotificationSuccess | NotificationError

  /** The notification type's wire value ("success" or "error"), matched against webhook FireOn. */
  function NotificationTypeName(t: NotificationType): string {
    match t
    case NotificationSuccess => "success"
    case NotificationError => "error"
  }

  datatype NotifyInfo = NotifyInfo(header: string, text: string, large: bool)

  datatype NotifyOptions = NotifyOptions(
    source: Option<Source>,
    gitInfo: GitInfo,
    notificationType: NotificationType,
    message: string,
    infos: seq<NotifyInfo>)

  /** A job's name, "" when unset (strPtrToStr on the job's Name). */
  function JobName(j: JobInfo): string {
    j.job.name.GetOr("")
  }
}
