/** Domain records the core passes around (backend/domain): the watched Source, per-job and
    per-source status records, audit events, and opaque timestamps. */
module Domain {
  import opened Wrappers

  /** A watched repository binding (domain.Source without its persisted status). */
  datatype Source = Source(
    id: string,
    name: string,
    branch: string,
    createNamespace: bool,
    dataCenter: string,
    deployKeyID: string,
    vaultTokenID: string,
    force: bool,
    paused: bool,
    namespace: string,
    path: string,
    region: string,
    url: string)

  /** A `time.Time` value, opaque apart from being the zero time or not. */
  datatype Time = ZeroTime | Instant(stamp: nat)

  datatype TaskStatus = TaskStatus(driver: string)

  datatype ServiceStatus = ServiceStatus(port: string)

  datatype GroupStatus = GroupStatus(
    count: int,
    services: map<string, ServiceStatus>,
    tasks: map<string, TaskStatus>)

  datatype JobStatus = JobStatus(
    groups: map<string, GroupStatus>,
    status: string,
    deploymentStatus: string,
    statusDescription: string,
    jobType: string,
    namespace: string)

  datatype SourceStatus = SourceStatus(
    jobs: map<string, JobStatus>,
    lastCheckTime: Option<Time>,
    lastUpdateTime: Option<Time>,
    message: string,
    status: string)

  const StatusSynced := "synced"
  const StatusSyncedWithError := "syncedwitherror"
  const StatusError := "error"
  const StatusUnknown := "unknown"
  const StatusSyncing := "syncing"
  const StatusPaused := "paused"
  const StatusInit := "init"

  datatype EventType = EventCreated | EventUpdated | EventDeleted

  /** An audit event (its random ID and timestamp are left out). */
  datatype Event = Event(message: string, eventType: EventType, sourceID: string)
}
