/** The repository watcher (backend/application/watcher.go): a registry of watched sources, the routing of
    sync and pause requests to their loops, the per-source overrides applied to a fetched desired state,
    and one iteration of a source's watch loop. Goroutines, channels, the timer and the mutex are not
    modelled: the registry is a map, a loop iteration is a step function driven by the wake-up it received,
    and what a loop would do with a delivered request is the delivery's result. */
module Watcher {
  import opened Wrappers
  import opened Text
  import opened Errors
  import opened Domain
  import opened Application
  import opened Nomad
  import Reconciler
  import SyncStatus

  // ---------------------------------------------------------------------------------------------
  // Registry.

  /** The watch list: the watched source of every registered ID. */
  type Registry = map<string, Source>

  /** A SetSourceStatus call. */
  datatype Published = Published(id: string, status: SourceStatus)

  /** The status published when a watch starts. */
  function InitStatus(): SourceStatus {
    SourceStatus(map[], None, None, "Waiting on first sync", StatusInit)
  }

  datatype WatchResult = WatchResult(registry: Registry, published: seq<Published>, err: Option<Error>)

  /** WatchSource: registers a source that is not watched yet, publishing its init status (a new loop starts
      in `Start(src)`); an already-watched ID changes nothing. It returns nil in both cases, a failed
      SetSourceStatus only being logged. */
  function WatchSource(reg: Registry, src: Source): (r: WatchResult)
    ensures r.err.None?
    ensures src.id in reg ==> r.registry == reg && r.published == []
    ensures src.id !in reg ==>
      && r.registry.Keys == reg.Keys + {src.id}
      && r.registry[src.id] == src
      && (forall id | id in reg :: r.registry[id] == reg[id])
      && r.published == [Published(src.id, InitStatus())]
  {
    if src.id in reg then WatchResult(reg, [], None)
    else WatchResult(reg[src.id := src], [Published(src.id, InitStatus())], None)
  }

  /** StopSourceWatch: unregisters an ID (cancelling its loop); an unknown ID is a no-op. Always nil. */
  function StopSourceWatch(reg: Registry, id: string): (r: (Registry, Option<Error>))
    ensures r.1.None?
    ensures r.0.Keys == reg.Keys - {id}
    ensures forall k | k in r.0 :: r.0[k] == reg[k]
  {
    (map k | k in reg && k != id :: reg[k], None)
  }

  /** Watching a source twice is watching it once. */
  lemma WatchSourceIsIdempotent(reg: Registry, src: Source)
    ensures WatchSource(WatchSource(reg, src).registry, src).registry == WatchSource(reg, src).registry
    ensures WatchSource(WatchSource(reg, src).registry, src).published == []
  {
  }

  /** Stopping a watch that was just started restores the registry; stopping an unknown ID changes nothing. */
  lemma StopUndoesWatch(reg: Registry, src: Source)
    ensures src.id !in reg ==> StopSourceWatch(WatchSource(reg, src).registry, src.id).0 == reg
    ensures src.id !in reg ==> StopSourceWatch(reg, src.id).0 == reg
  {
  }

  /** A request handed to a source's loop. */
  datatype Delivery = SyncRequest(id: string, forceRestart: bool) | PauseRequest(id: string, pause: bool)

  /** SyncSourceByID: hands the request to the registered source's loop and returns the hand-over's result
      (nil, or the error of a cancelled context), or ErrNotFound for an unregistered ID. */
  function SyncSourceByID(reg: Registry, id: string, forceRestart: bool, handOver: Option<Error>): (r: (Option<Error>, seq<Delivery>))
    ensures id !in reg ==> r == (Some(ErrNotFound), [])
    ensures id in reg ==> r.1 == [SyncRequest(id, forceRestart)] && r.0 == handOver
  {
    if id !in reg then (Some(ErrNotFound), [])
    else (handOver, [SyncRequest(id, forceRestart)])
  }

  /** PauseSourceByID: as SyncSourceByID, for a pause request. */
  function PauseSourceByID(reg: Registry, id: string, pause: bool, handOver: Option<Error>): (r: (Option<Error>, seq<Delivery>))
    ensures id !in reg ==> r == (Some(ErrNotFound), [])
    ensures id in reg ==> r.1 == [PauseRequest(id, pause)] && r.0 == handOver
  {
    if id !in reg then (Some(ErrNotFound), [])
    else (handOver, [PauseRequest(id, pause)])
  }

  // ---------------------------------------------------------------------------------------------
  // The watcher's mutex.

  /** A call that takes the watcher's mutex; `Sync` is SyncSource for a push to `repo` on `branch`. */
  datatype LockedCall =
    | SyncByID(id: string) | PauseByID(id: string) | Sync(repo: string, branch: string) | Watch(src: Source) | Stop(id: string)

  /** The registry after a call that returned. */
  function AfterCall(reg: Registry, c: LockedCall): Registry {
    match c
    case Watch(src) => WatchSource(reg, src).registry
    case Stop(id) => StopSourceWatch(reg, id).0
    case _ => reg
  }

  /** As written, the by-ID calls return ErrNotFound without unlocking: the mutex stays held. */
  predicate LeavesMutexHeld(reg: Registry, c: LockedCall) {
    (c.SyncByID? || c.PauseByID?) && c.id !in reg
  }

  /** The registry before the `i`-th of `calls`, every earlier call having returned. */
  function RegistryAt(reg: Registry, calls: seq<LockedCall>, i: nat): Registry
    requires i <= |calls|
    decreases i
  {
    if i == 0 then reg else RegistryAt(AfterCall(reg, calls[0]), calls[1..], i - 1)
  }

  /** The state of the watcher's mutex between calls. */
  datatype Mutex = Free | Held

  /** One call on the watcher: it blocks on Lock for good when the mutex is held (None); otherwise it takes
      the mutex, runs, and releases it, except that as written a by-ID call for an unknown ID returns while
      still holding it. */
  function Call(reg: Registry, m: Mutex, c: LockedCall, asWritten: bool): (r: Option<(Registry, Mutex)>)
    ensures r.None? <==> m == Held
    ensures r.Some? ==> r.value.0 == AfterCall(reg, c)
    ensures r.Some? ==> (r.value.1 == Held <==> asWritten && LeavesMutexHeld(reg, c))
  {
    if m == Held then None
    else if asWritten && LeavesMutexHeld(reg, c) then Some((reg, Held))
    else Some((AfterCall(reg, c), Free))
  }

  /** How many of `calls`, issued in turn by one caller, return: the first call that blocks stops the caller. */
  function Returned(reg: Registry, m: Mutex, calls: seq<LockedCall>, asWritten: bool): (r: nat)
    ensures r <= |calls|
    // A held mutex blocks the first call.
    ensures m == Held ==> r == 0
    // With every branch releasing the mutex, every call returns.
    ensures m == Free && !asWritten ==> r == |calls|
    // As written, the calls up to and including the first that leaves the mutex held return, and no other.
    ensures m == Free && asWritten ==>
      && (forall i | 0 <= i < r - 1 :: !LeavesMutexHeld(RegistryAt(reg, calls, i), calls[i]))
      && (r < |calls| ==> 0 < r && LeavesMutexHeld(RegistryAt(reg, calls, r - 1), calls[r - 1]))
      && (r == |calls| ==> forall i | 0 <= i < |calls| - 1 :: !LeavesMutexHeld(RegistryAt(reg, calls, i), calls[i]))
    decreases |calls|
  {
    if calls == [] then 0
    else
      match Call(reg, m, calls[0], asWritten)
      case None => 0
      case Some((reg', m')) =>
        var rest := Returned(reg', m', calls[1..], asWritten);
        assert forall i | 0 <= i < |calls| - 1 :: calls[1..][i] == calls[i + 1];
        assert forall i | 0 <= i < |calls| - 1 :: RegistryAt(reg, calls, i + 1) == RegistryAt(AfterCall(reg, calls[0]), calls[1..], i);
        1 + rest
  }

  /** How many of `calls`, issued in turn, return as Go's code is written. */
  function CompletedAsWritten(reg: Registry, calls: seq<LockedCall>): (r: nat)
    ensures r <= |calls|
    // Short of the end, the last call to return is the first that left the mutex held.
    ensures r < |calls| ==>
      && 0 < r
      && LeavesMutexHeld(RegistryAt(reg, calls, r - 1), calls[r - 1])
      && forall i | 0 <= i < r - 1 :: !LeavesMutexHeld(RegistryAt(reg, calls, i), calls[i])
    ensures r == |calls| ==> forall i | 0 <= i < |calls| - 1 :: !LeavesMutexHeld(RegistryAt(reg, calls, i), calls[i])
  {
    Returned(reg, Free, calls, true)
  }

  /** A by-ID call for an unregistered ID blocks whatever call comes next. */
  lemma UnknownIDBlocksTheWatcher(reg: Registry, id: string, next: LockedCall)
    requires id !in reg
    ensures CompletedAsWritten(reg, [SyncByID(id), next]) == 1
    ensures CompletedAsWritten(reg, [PauseByID(id), next]) == 1
    // SyncSource takes the same mutex, so a push after it blocks too.
    ensures forall repo, branch :: CompletedAsWritten(reg, [SyncByID(id), Sync(repo, branch)]) == 1
  {
  }

  /** How many of `calls` return when every branch releases the mutex, as intended. */
  function Completed(reg: Registry, calls: seq<LockedCall>): (r: nat)
    ensures r == |calls|
  {
    Returned(reg, Free, calls, false)
  }

  /** The two agree exactly on call sequences in which no by-ID call meets an unregistered ID before the
      last call. */
  lemma {:induction false} CompletedAgrees(reg: Registry, calls: seq<LockedCall>)
    ensures CompletedAsWritten(reg, calls) == Completed(reg, calls) <==> NoEarlyUnknownID(reg, calls)
    decreases |calls|
  {
    if calls != [] && !LeavesMutexHeld(reg, calls[0]) {
      CompletedAgrees(AfterCall(reg, calls[0]), calls[1..]);
    }
  }

  /** No call but possibly the last leaves the mutex held, the registry evolving as the calls return. */
  predicate NoEarlyUnknownID(reg: Registry, calls: seq<LockedCall>)
    decreases |calls|
  {
    |calls| <= 1 || (!LeavesMutexHeld(reg, calls[0]) && NoEarlyUnknownID(AfterCall(reg, calls[0]), calls[1..]))
  }

  /** A registered source that a push to `repo` on `branch` concerns: same branch, and a URL that parses
      (`parsePath` is the git-URL parser's path, None when it fails) to the path `repo + ".git"`. */
  predicate Targeted(reg: Registry, parsePath: string -> Option<string>, repo: string, branch: string, id: string) {
    id in reg && reg[id].branch == branch && parsePath(reg[id].url) == Some(repo + ".git")
  }

  /** The targeted IDs, in the watch list's iteration order `order`. */
  function Targets(reg: Registry, order: seq<string>, parsePath: string -> Option<string>, repo: string, branch: string): (r: seq<string>)
    ensures forall i | 0 <= i < |r| :: Targeted(reg, parsePath, repo, branch, r[i])
    ensures forall i | 0 <= i < |order| && Targeted(reg, parsePath, repo, branch, order[i]) :: order[i] in r
    decreases |order|
  {
    if order == [] then []
    else
      assert forall i | 1 <= i < |order| :: order[i] == order[1..][i - 1];
      (if Targeted(reg, parsePath, repo, branch, order[0]) then [order[0]] else []) + Targets(reg, order[1..], parsePath, repo, branch)
  }

  /** Hands a sync request to each of `ids` in turn, stopping at the first failed hand-over. */
  function DeliverAll(ids: seq<string>, forceRestart: bool, handOver: string -> Option<Error>): (r: (Option<Error>, seq<Delivery>))
    ensures |r.1| <= |ids|
    ensures forall i | 0 <= i < |r.1| :: r.1[i] == SyncRequest(ids[i], forceRestart)
    ensures r.0.None? <==> |r.1| == |ids| && forall i | 0 <= i < |ids| :: handOver(ids[i]).None?
    ensures r.0.Some? ==> |r.1| > 0 && r.0 == handOver(ids[|r.1| - 1]) && forall i | 0 <= i < |r.1| - 1 :: handOver(ids[i]).None?
    decreases |ids|
  {
    if ids == [] then (None, [])
    else
      var first := [SyncRequest(ids[0], forceRestart)];
      match handOver(ids[0])
      case Some(e) => (Some(e), first)
      case None =>
        var rest := DeliverAll(ids[1..], forceRestart, handOver);
        DeliveredCons(ids, forceRestart, handOver, rest.0, rest.1);
        (rest.0, first + rest.1)
  }

  /** `err` and `sent` are what handing requests to `ids` in turn gives: each sent request is for the ID
      at its position, and `err` is the first failed hand-over, None when all succeeded. */
  predicate Delivered(ids: seq<string>, forceRestart: bool, handOver: string -> Option<Error>, err: Option<Error>, sent: seq<Delivery>) {
    && |sent| <= |ids|
    && (forall i | 0 <= i < |sent| :: sent[i] == SyncRequest(ids[i], forceRestart))
    && (err.None? <==> |sent| == |ids| && forall i | 0 <= i < |ids| :: handOver(ids[i]).None?)
    && (err.Some? ==> |sent| > 0 && err == handOver(ids[|sent| - 1]) && forall i | 0 <= i < |sent| - 1 :: handOver(ids[i]).None?)
  }

  /** A successful first hand-over followed by the deliveries to the rest is a delivery to all of `ids`. */
  lemma DeliveredCons(ids: seq<string>, forceRestart: bool, handOver: string -> Option<Error>, err: Option<Error>, sent: seq<Delivery>)
    requires ids != [] && handOver(ids[0]).None?
    requires Delivered(ids[1..], forceRestart, handOver, err, sent)
    ensures Delivered(ids, forceRestart, handOver, err, [SyncRequest(ids[0], forceRestart)] + sent)
  {
    assert forall i | 1 <= i < |ids| :: ids[i] == ids[1..][i - 1];
  }

  /** SyncSource: ErrNotFound when no registered source is targeted, otherwise the targeted sources' loops
      get the request in turn until a hand-over fails. */
  function SyncSource(reg: Registry, order: seq<string>, parsePath: string -> Option<string>, repo: string, branch: string,
                      forceRestart: bool, handOver: string -> Option<Error>): (r: (Option<Error>, seq<Delivery>))
    ensures Targets(reg, order, parsePath, repo, branch) == [] ==> r == (Some(ErrNotFound), [])
    ensures Targets(reg, order, parsePath, repo, branch) != [] ==> r == DeliverAll(Targets(reg, order, parsePath, repo, branch), forceRestart, handOver)
  {
    var targets := Targets(reg, order, parsePath, repo, branch);
    if targets == [] then (Some(ErrNotFound), []) else DeliverAll(targets, forceRestart, handOver)
  }

  /** With `order` enumerating the registry, every targeted source is among the targets. */
  lemma TargetsComplete(reg: Registry, order: seq<string>, parsePath: string -> Option<string>, repo: string, branch: string)
    requires Enumerates(order, reg.Keys)
    ensures forall id | Targeted(reg, parsePath, repo, branch, id) :: id in Targets(reg, order, parsePath, repo, branch)
  {
    forall id | Targeted(reg, parsePath, repo, branch, id) ensures id in Targets(reg, order, parsePath, repo, branch) {
      var j :| 0 <= j < |order| && order[j] == id;
    }
  }

  /** SyncSource reports ErrNotFound exactly when no registered source is targeted; otherwise it reports
      success exactly when every targeted source's loop took the request, and it only ever delivers to
      targeted sources. */
  lemma {:induction false} SyncSourceRouting(reg: Registry, order: seq<string>, parsePath: string -> Option<string>, repo: string, branch: string,
                                             forceRestart: bool, handOver: string -> Option<Error>)
    requires Enumerates(order, reg.Keys)
    requires forall id | id in reg :: handOver(id) != Some(ErrNotFound)
    ensures SyncSource(reg, order, parsePath, repo, branch, forceRestart, handOver).0 == Some(ErrNotFound) <==>
      !exists id | id in reg :: Targeted(reg, parsePath, repo, branch, id)
    ensures SyncSource(reg, order, parsePath, repo, branch, forceRestart, handOver).0.None? <==>
      (exists id | id in reg :: Targeted(reg, parsePath, repo, branch, id)) &&
      forall id | Targeted(reg, parsePath, repo, branch, id) :: handOver(id).None?
    ensures forall d | d in SyncSource(reg, order, parsePath, repo, branch, forceRestart, handOver).1 ::
      d.SyncRequest? && d.forceRestart == forceRestart && Targeted(reg, parsePath, repo, branch, d.id)
  {
    var targets := Targets(reg, order, parsePath, repo, branch);
    var r := SyncSource(reg, order, parsePath, repo, branch, forceRestart, handOver);
    TargetsComplete(reg, order, parsePath, repo, branch);
    if exists id | id in reg :: Targeted(reg, parsePath, repo, branch, id) {
      var id :| id in reg && Targeted(reg, parsePath, repo, branch, id);
      assert id in targets;
      if r.0.Some? {
        assert handOver(targets[|r.1| - 1]) == r.0;
      }
      if forall t | Targeted(reg, parsePath, repo, branch, t) :: handOver(t).None? {
        assert forall i | 0 <= i < |targets| :: handOver(targets[i]).None?;
      }
    }
    forall d | d in r.1 ensures d.SyncRequest? && d.forceRestart == forceRestart && Targeted(reg, parsePath, repo, branch, d.id) {
      var j :| 0 <= j < |r.1| && r.1[j] == d;
    }
  }

  // ---------------------------------------------------------------------------------------------
  // Overrides.

  /** applyOverrides on one job: the source's comma-separated data centers and its namespace replace the
      job's when they are set. */
  function OverrideJob(src: Source, j: JobInfo): JobInfo {
    var job := j.job;
    var job := if src.dataCenter != "" then job.(datacenters := Split(src.dataCenter, ',')) else job;
    var job := if src.namespace != "" then job.(namespace := Some(src.namespace)) else job;
    j.(job := job)
  }

  /** applyOverrides, which never fails. */
  function ApplyOverrides(src: Source, desired: DesiredState): (r: DesiredState)
    ensures r.gitInfo == desired.gitInfo && r.jobs.Keys == desired.jobs.Keys
    ensures forall k | k in r.jobs ::
      && r.jobs[k].job.datacenters == (if src.dataCenter != "" then Split(src.dataCenter, ',') else desired.jobs[k].job.datacenters)
      && r.jobs[k].job.namespace == (if src.namespace != "" then Some(src.namespace) else desired.jobs[k].job.namespace)
      && r.jobs[k].job.region == desired.jobs[k].job.region
      && r.jobs[k].(job := r.jobs[k].job.(datacenters := [], namespace := None)) == desired.jobs[k].(job := desired.jobs[k].job.(datacenters := [], namespace := None))
  {
    desired.(jobs := map k | k in desired.jobs :: OverrideJob(src, desired.jobs[k]))
  }

  /** Applying the overrides twice is applying them once. */
  lemma OverridesAreIdempotent(src: Source, desired: DesiredState)
    ensures ApplyOverrides(src, ApplyOverrides(src, desired)) == ApplyOverrides(src, desired)
  {
    var once := ApplyOverrides(src, desired);
    var twice := ApplyOverrides(src, once);
    assert forall k | k in twice.jobs :: twice.jobs[k] == once.jobs[k];
  }

  /** The data centers an override installs join back to the source's setting. */
  lemma OverrideDataCenters(src: Source, desired: DesiredState, k: string)
    requires k in desired.jobs && src.dataCenter != ""
    ensures Text.Join(ApplyOverrides(src, desired).jobs[k].job.datacenters, ',') == src.dataCenter
  {
    JoinSplit(src.dataCenter, ',');
  }

  // ---------------------------------------------------------------------------------------------
  // One loop iteration.

  /** What woke the loop up: the interval timer, a sync request, a pause request, a source update, or the
      cancellation of the watch. */
  datatype Wake = Tick | SyncWake(forceRestart: bool) | PauseWake(pause: bool) | UpdateWake(source: Source) | Cancelled

  /** The loop's state between iterations. */
  datatype LoopState = LoopState(source: Source, paused: bool, hasError: bool)

  /** A loop's state before its first wake-up. */
  function Start(src: Source): LoopState {
    LoopState(src, false, false)
  }

  /** A SetSourceStatus or a Notify call of the loop. */
  datatype LoopEffect = SetStatus(id: string, status: SourceStatus) | SendNotice(options: NotifyOptions)

  /** The reconciler the loop was registered with: the status and change summary, or an error. */
  type Reconcile = (Source, DesiredState, bool) -> Result<(SourceStatus, ChangeInfo), Error>

  /** One wake-up with what the collaborators answer in that iteration: the desired-state fetch, the
      reconciler, the clock, what SetSourceStatus returns when a failed iteration publishes its error
      status, and the iteration order of the reconciled status's job map. */
  datatype Cycle = Cycle(wake: Wake, fetch: Source -> Result<DesiredState, Error>, reconcile: Reconcile, now: Time,
                         statusErr: Option<Error>, statusOrder: seq<string>)

  datatype StepResult = Stopped | Cycled(state: LoopState, restart: bool, effects: seq<LoopEffect>)

  /** The infos every loop notification starts with. */
  function SourceInfos(src: Source, restart: bool): seq<NotifyInfo> {
    [ NotifyInfo("Git-Url", src.url, false),
      NotifyInfo("Git-Rev", src.branch, false),
      NotifyInfo("Git-Repo-Path", src.path, false),
      NotifyInfo("Nomad-Namespace", src.namespace, false),
      NotifyInfo("Nomad-Region", src.region, false),
      NotifyInfo("Nomad-DataCenter", src.dataCenter, false),
      NotifyInfo("Force Restart", BoolToString(restart), false) ]
  }

  /** An error notification whose large Error info reads `what + ":" + errText`. */
  function ErrorNoticeWith(src: Source, restart: bool, what: string, errText: string): NotifyOptions {
    NotifyOptions(Some(src), GitInfo(""), NotificationError, what, SourceInfos(src, restart) + [NotifyInfo("Error", what + ":" + errText, true)])
  }

  /** The error notification as the loop writes it: its Error info formats the variable `err` after it was
      overwritten with SetSourceStatus's result `statusErr`, so it shows "<nil>" when the status was saved. */
  function ErrorNoticeAsWritten(src: Source, restart: bool, what: string, statusErr: Option<Error>): (r: NotifyOptions)
    ensures r.notificationType == NotificationError && r.source == Some(src) && r.message == what
    ensures |r.infos| == 8 && r.infos[7] == NotifyInfo("Error", what + ":" + Format(statusErr), true)
    ensures statusErr.None? ==> r.infos[7].text == what + ":<nil>"
  {
    ErrorNoticeWith(src, restart, what, Format(statusErr))
  }

  /** The error notification as intended: its Error info carries the error that failed the cycle. */
  function ErrorNotice(src: Source, restart: bool, what: string, e: Error): (r: NotifyOptions)
    ensures r.notificationType == NotificationError && r.source == Some(src) && r.message == what
    ensures |r.infos| == 8 && r.infos[7] == NotifyInfo("Error", what + ":" + Message(e), true)
  {
    ErrorNoticeWith(src, restart, what, Message(e))
  }

  /** With the status saved, the notification as written names no error at all, while the intended one
      names the fetch error. */
  lemma ErrorNoticeLosesTheError()
    ensures var src := Source("s1", "n", "main", false, "", "", "", false, false, "", "", "", "git@host:org/repo.git");
      && ErrorNoticeAsWritten(src, false, "Could not fetch desired state", None).infos[7].text == "Could not fetch desired state:<nil>"
      && ErrorNotice(src, false, "Could not fetch desired state", Simple("repository not found")).infos[7].text
           == "Could not fetch desired state:repository not found"
  {
  }

  /** The intended Error info always shows the failing error's message; the written one only shows
      SetSourceStatus's result. */
  lemma ErrorNoticeNamesTheError(src: Source, restart: bool, what: string, e: Error, statusErr: Option<Error>)
    ensures ErrorNotice(src, restart, what, e).infos[7].text == what + ":" + Message(e)
    ensures ErrorNoticeAsWritten(src, restart, what, statusErr).infos[7].text == what + ":" + Format(statusErr)
    // The two notifications are the same exactly when SetSourceStatus's result prints as the failing error.
    ensures ErrorNoticeAsWritten(src, restart, what, statusErr) == ErrorNotice(src, restart, what, e) <==> Format(statusErr) == Message(e)
    ensures ErrorNoticeAsWritten(src, restart, what, Some(e)) == ErrorNotice(src, restart, what, e)
  {
    var written, intended := ErrorNoticeAsWritten(src, restart, what, statusErr), ErrorNotice(src, restart, what, e);
    if written == intended {
      var prefix := what + ":";
      assert written.infos[7].text == prefix + Format(statusErr);
      assert (prefix + Format(statusErr))[|prefix|..] == Format(statusErr);
      assert (prefix + Message(e))[|prefix|..] == Message(e);
    }
  }

  /** The notification sent by the first successful cycle after failures. */
  function SyncedNotice(src: Source, restart: bool): NotifyOptions {
    NotifyOptions(Some(src), GitInfo(""), NotificationSuccess, "Synced successfully", SourceInfos(src, restart))
  }

  /** The status published for a failed cycle. */
  function ErrorStatus(e: Error, now: Time): SourceStatus {
    SourceStatus(map[], Reconciler.ToTimePtr(now), None, Message(e), StatusError)
  }

  /** The message of a paused source's status. */
  function PausedMessage(changes: ChangeInfo): (r: string)
    ensures |changes.create| == 0 && |changes.update| == 0 && |changes.delete| == 0 ==> r == "Still in sync"
    ensures |changes.create| > 0 || |changes.update| > 0 || |changes.delete| > 0 ==>
      r == "Out of sync: " + NatToString(|changes.create|) + " to create, " + NatToString(|changes.update|) + " to update, "
           + NatToString(|changes.delete|) + " to delete"
  {
    if |changes.create| > 0 || |changes.update| > 0 || |changes.delete| > 0 then
      "Out of sync: " + NatToString(|changes.create|) + " to create, " + NatToString(|changes.update|) + " to update, "
      + NatToString(|changes.delete|) + " to delete"
    else "Still in sync"
  }

  /** The status a successful cycle publishes: the reconciled one, marked paused with the pending changes
      when the loop is paused, and then put through DetermineSyncStatus. It is syncedwitherror when a
      deployment failed, otherwise "paused" for a paused loop and the reconciled status else; when no
      deployment is failed or running, a paused loop's message reports the pending changes and otherwise the
      reconciled message is kept. The job entries and times are the reconciled ones. */
  function FinalStatus(status: SourceStatus, changes: ChangeInfo, paused: bool, order: seq<string>): (r: SourceStatus)
    ensures Enumerates(order, status.jobs.Keys) ==>
      r.status == if exists k | k in status.jobs :: status.jobs[k].deploymentStatus == "failed" then StatusSyncedWithError
                  else if paused then StatusPaused else status.status
    ensures Enumerates(order, status.jobs.Keys) && !(exists k | k in status.jobs :: status.jobs[k].deploymentStatus in {"failed", "running"}) ==>
      r.message == if paused then PausedMessage(changes) else status.message
    ensures r.jobs == status.jobs && r.lastCheckTime == status.lastCheckTime && r.lastUpdateTime == status.lastUpdateTime
  {
    var status' := if paused then status.(status := StatusPaused, message := PausedMessage(changes)) else status;
    SyncStatus.DetermineSyncStatus(status', order).0
  }

  /** The error notification of a failed cycle: the one Go's code sends, or the intended one. */
  function FailureNotice(src: Source, restart: bool, what: string, e: Error, statusErr: Option<Error>, asWritten: bool): NotifyOptions {
    if asWritten then ErrorNoticeAsWritten(src, restart, what, statusErr) else ErrorNotice(src, restart, what, e)
  }

  /** The effects of a failed cycle: the error status and notification, unless the previous cycle had
      already failed. */
  function FailureEffects(st: LoopState, src: Source, restart: bool, what: string, e: Error, c: Cycle, asWritten: bool): seq<LoopEffect> {
    if st.hasError then []
    else [SetStatus(src.id, ErrorStatus(e, c.now)), SendNotice(FailureNotice(src, restart, what, e, c.statusErr, asWritten))]
  }

  /** Whether the cycle started by `c` in state `st` fails: the fetch or the reconciliation fails. */
  predicate CycleFails(st: LoopState, c: Cycle) {
    var src := if c.wake.UpdateWake? then c.wake.source else st.source;
    var restart := c.wake.SyncWake? && c.wake.forceRestart;
    || c.fetch(src).Failure?
    || c.reconcile(src, ApplyOverrides(src, c.fetch(src).value), restart).Failure?
  }

  /** The message and error of a failed cycle. */
  function Failure(st: LoopState, c: Cycle): (string, Error)
    requires CycleFails(st, c)
  {
    var src := if c.wake.UpdateWake? then c.wake.source else st.source;
    var restart := c.wake.SyncWake? && c.wake.forceRestart;
    match c.fetch(src)
    case Failure(e) => ("Could not fetch desired state", e)
    case Success(desired) => ("Could not Reconcile", c.reconcile(src, ApplyOverrides(src, desired), restart).error)
  }

  /** One iteration of the watch loop. With `asWritten` its error notification is the one Go's code sends,
      which formats SetSourceStatus's result; without it, the intended one naming the failing error. */
  function Step(st: LoopState, c: Cycle, asWritten: bool): (r: StepResult)
    ensures r.Stopped? <==> c.wake.Cancelled?
    ensures r.Cycled? ==> r.state.hasError == CycleFails(st, c)
  {
    if c.wake.Cancelled? then Stopped
    else
      var restart := c.wake.SyncWake? && c.wake.forceRestart;
      var paused := if c.wake.PauseWake? then c.wake.pause else st.paused;
      var src := if c.wake.UpdateWake? then c.wake.source else st.source;
      match c.fetch(src)
      case Failure(e) =>
        Cycled(LoopState(src, paused, true), restart, FailureEffects(st, src, restart, "Could not fetch desired state", e, c, asWritten))
      case Success(desired) =>
        match c.reconcile(src, ApplyOverrides(src, desired), restart)
        case Failure(e) =>
          Cycled(LoopState(src, paused, true), restart, FailureEffects(st, src, restart, "Could not Reconcile", e, c, asWritten))
        case Success((status, changes)) =>
          var synced := if st.hasError then [SendNotice(SyncedNotice(src, restart))] else [];
          Cycled(LoopState(src, paused, false), restart, synced + [SetStatus(src.id, FinalStatus(status, changes, paused, c.statusOrder))])
  }

  /** A successful iteration publishes, under the (possibly updated) source's ID, the final status of what
      the reconciler returned for the overridden desired state and the iteration's restart flag. */
  lemma StepPublishes(st: LoopState, c: Cycle, asWritten: bool)
    requires !c.wake.Cancelled? && !CycleFails(st, c)
    ensures var src := Step(st, c, asWritten).state.source;
      var rec := c.reconcile(src, ApplyOverrides(src, c.fetch(src).value), Step(st, c, asWritten).restart).value;
      Step(st, c, asWritten).effects[|Step(st, c, asWritten).effects| - 1] == SetStatus(src.id, FinalStatus(rec.0, rec.1, Step(st, c, asWritten).state.paused, c.statusOrder))
  {
  }

  /** Wake-ups: only a sync request sets `restart` (for that iteration), only a pause request changes
      `paused`, and only an update replaces the source. */
  lemma StepWake(st: LoopState, c: Cycle, asWritten: bool)
    requires !c.wake.Cancelled?
    ensures Step(st, c, asWritten).restart <==> c.wake.SyncWake? && c.wake.forceRestart
    ensures Step(st, c, asWritten).state.paused == if c.wake.PauseWake? then c.wake.pause else st.paused
    ensures Step(st, c, asWritten).state.source == if c.wake.UpdateWake? then c.wake.source else st.source
  {
  }

  /** Go's code and the intended loop take the same iteration but for the error notification, and the two
      iterations are the same exactly when the cycle succeeds, the previous one had already failed, or
      SetSourceStatus's result prints as the failing error. */
  lemma StepAsWrittenDiffers(st: LoopState, c: Cycle)
    requires !c.wake.Cancelled?
    ensures Step(st, c, true).state == Step(st, c, false).state && Step(st, c, true).restart == Step(st, c, false).restart
    ensures |Step(st, c, true).effects| == |Step(st, c, false).effects|
    ensures forall j | 0 <= j < |Step(st, c, false).effects| && !Step(st, c, false).effects[j].SendNotice? ::
      Step(st, c, true).effects[j] == Step(st, c, false).effects[j]
    ensures Step(st, c, true) == Step(st, c, false) <==>
      !CycleFails(st, c) || st.hasError || Format(c.statusErr) == Message(Failure(st, c).1)
  {
    if CycleFails(st, c) && !st.hasError {
      var src := if c.wake.UpdateWake? then c.wake.source else st.source;
      var restart := c.wake.SyncWake? && c.wake.forceRestart;
      var (what, e) := Failure(st, c);
      ErrorNoticeNamesTheError(src, restart, what, e, c.statusErr);
    }
  }

  /** The number of "Synced successfully" notifications among `effects`. */
  function SyncedNotices(effects: seq<LoopEffect>): nat {
    if effects == [] then 0 else (if IsSyncedNotice(effects[0]) then 1 else 0) + SyncedNotices(effects[1..])
  }

  predicate IsErrorNotice(e: LoopEffect) {
    e.SendNotice? && e.options.notificationType == NotificationError
  }

  predicate IsSyncedNotice(e: LoopEffect) {
    e.SendNotice? && e.options.message == "Synced successfully"
  }

  /** A failed iteration publishes the error status and sends the error notification only when the previous
      one had not failed, and otherwise does nothing. */
  lemma StepFailure(st: LoopState, c: Cycle, asWritten: bool)
    requires !c.wake.Cancelled? && CycleFails(st, c)
    ensures st.hasError ==> Step(st, c, asWritten).effects == []
    ensures !st.hasError ==>
      && |Step(st, c, asWritten).effects| == 2
      && Step(st, c, asWritten).effects[0].SetStatus? && Step(st, c, asWritten).effects[0].status.status == StatusError
      && IsErrorNotice(Step(st, c, asWritten).effects[1])
    ensures SyncedNotices(Step(st, c, asWritten).effects) == 0
    // The status carries the failing error; the notification is the one Go's code sends, or the intended one.
    ensures !st.hasError ==>
      var r := Step(st, c, asWritten);
      var (what, e) := Failure(st, c);
      && r.effects[0] == SetStatus(r.state.source.id, ErrorStatus(e, c.now))
      && r.effects[1] == SendNotice(if asWritten then ErrorNoticeAsWritten(r.state.source, r.restart, what, c.statusErr)
                                    else ErrorNotice(r.state.source, r.restart, what, e))
  {
    var effects := Step(st, c, asWritten).effects;
    if !st.hasError {
      assert !IsSyncedNotice(effects[0]) && !IsSyncedNotice(effects[1..][0]) && effects[1..][1..] == [];
      assert SyncedNotices(effects[1..]) == 0 + SyncedNotices(effects[1..][1..]);
    }
  }

  /** A successful iteration sends no error notification, exactly one "Synced successfully" notification
      when the previous one had failed and none otherwise, and ends with publishing its status. */
  lemma {:induction false} StepSuccess(st: LoopState, c: Cycle, asWritten: bool)
    requires !c.wake.Cancelled? && !CycleFails(st, c)
    ensures forall j | 0 <= j < |Step(st, c, asWritten).effects| :: !IsErrorNotice(Step(st, c, asWritten).effects[j])
    ensures SyncedNotices(Step(st, c, asWritten).effects) == if st.hasError then 1 else 0
    ensures |Step(st, c, asWritten).effects| > 0 && Step(st, c, asWritten).effects[|Step(st, c, asWritten).effects| - 1].SetStatus?
  {
    var restart := c.wake.SyncWake? && c.wake.forceRestart;
    var paused := if c.wake.PauseWake? then c.wake.pause else st.paused;
    var src := if c.wake.UpdateWake? then c.wake.source else st.source;
    var rec := c.reconcile(src, ApplyOverrides(src, c.fetch(src).value), restart).value;
    var status := FinalStatus(rec.0, rec.1, paused, c.statusOrder);
    var synced := if st.hasError then [SendNotice(SyncedNotice(src, restart))] else [];
    var r := Step(st, c, asWritten);
    assert r == Cycled(LoopState(src, paused, false), restart, synced + [SetStatus(src.id, status)]);
    if st.hasError {
      assert r.effects == [SendNotice(SyncedNotice(src, restart)), SetStatus(src.id, status)];
      assert r.effects[1..][1..] == [];
      assert IsSyncedNotice(r.effects[0]) && !IsSyncedNotice(r.effects[1..][0]);
      assert SyncedNotices(r.effects[1..]) == 0 + SyncedNotices(r.effects[1..][1..]);
    } else {
      assert r.effects == [SetStatus(src.id, status)];
      assert r.effects[1..] == [];
      assert !IsSyncedNotice(r.effects[0]);
    }
  }

  // ---------------------------------------------------------------------------------------------
  // The loop over a sequence of wake-ups.

  /** The state after one iteration and its effects. */
  datatype Turn = Turn(state: LoopState, effects: seq<LoopEffect>)

  /** The loop driven by `cycles` from state `st`: one turn per wake-up, until a cancellation. */
  function Run(st: LoopState, cycles: seq<Cycle>, asWritten: bool): (r: seq<Turn>)
    ensures |r| <= |cycles|
    decreases |cycles|
  {
    if cycles == [] || cycles[0].wake.Cancelled? then []
    else
      var step := Step(st, cycles[0], asWritten);
      [Turn(step.state, step.effects)] + Run(step.state, cycles[1..], asWritten)
  }

  /** The state the `i`-th turn of a run starts from. */
  function Before(st: LoopState, turns: seq<Turn>, i: nat): LoopState
    requires i <= |turns|
  {
    if i == 0 then st else turns[i - 1].state
  }

  /** Every wake-up before the first cancellation runs exactly one iteration, and nothing runs before the
      first wake-up. */
  lemma {:induction false} RunLength(st: LoopState, cycles: seq<Cycle>, asWritten: bool)
    ensures (forall i | 0 <= i < |cycles| :: !cycles[i].wake.Cancelled?) ==> |Run(st, cycles, asWritten)| == |cycles|
    ensures forall i | 0 <= i < |Run(st, cycles, asWritten)| :: !cycles[i].wake.Cancelled?
    ensures |Run(st, cycles, asWritten)| < |cycles| ==> cycles[|Run(st, cycles, asWritten)|].wake.Cancelled?
    decreases |cycles|
  {
    if cycles != [] && !cycles[0].wake.Cancelled? {
      var next := Step(st, cycles[0], asWritten).state;
      RunLength(next, cycles[1..], asWritten);
      var r, rest := Run(st, cycles, asWritten), Run(next, cycles[1..], asWritten);
      assert |r| == 1 + |rest|;
      forall i | 0 <= i < |r| ensures !cycles[i].wake.Cancelled? {
        if i > 0 {
          assert cycles[i] == cycles[1..][i - 1];
        }
      }
      if |r| < |cycles| {
        assert cycles[|r|] == cycles[1..][|rest|];
      }
      if forall i | 0 <= i < |cycles| :: !cycles[i].wake.Cancelled? {
        forall i | 0 <= i < |cycles| - 1 ensures !cycles[1..][i].wake.Cancelled? {
          assert cycles[1..][i] == cycles[i + 1];
        }
      }
    }
  }

  /** What a turn from state `before` on wake-up `c` promises: it records whether its iteration failed; it
      sends an error notification exactly when it failed and the previous one had not, and exactly one
      "Synced successfully" notification when it succeeded and the previous one had failed (none
      otherwise); it publishes the error status only with the error notification, and a success always
      publishes its status last. */
  predicate NotifiesOnChange(before: LoopState, c: Cycle, t: Turn) {
    && t.state.hasError == CycleFails(before, c)
    && ((exists j | 0 <= j < |t.effects| :: IsErrorNotice(t.effects[j])) <==> t.state.hasError && !before.hasError)
    && SyncedNotices(t.effects) == (if !t.state.hasError && before.hasError then 1 else 0)
    // The error status is published together with the error notification, a repeated failure does
    // nothing, and a success ends by publishing its status.
    && (t.state.hasError && !before.hasError ==> |t.effects| == 2 && t.effects[0].SetStatus? && t.effects[0].status.status == StatusError)
    && (t.state.hasError && before.hasError ==> t.effects == [])
    && (!t.state.hasError ==> |t.effects| > 0 && t.effects[|t.effects| - 1].SetStatus?)
  }

  /** Every iteration notifies on a change between failure and success only. */
  lemma StepNotifiesOnChange(st: LoopState, c: Cycle, asWritten: bool)
    requires !c.wake.Cancelled?
    ensures NotifiesOnChange(st, c, Turn(Step(st, c, asWritten).state, Step(st, c, asWritten).effects))
  {
    if CycleFails(st, c) {
      StepFailure(st, c, asWritten);
    } else {
      StepSuccess(st, c, asWritten);
    }
  }

  /** Over any sequence of wake-ups the error notification is sent exactly on the first failure of a run
      of consecutive failures, and exactly one "Synced successfully" notification on the first success
      after such a run. */
  lemma {:induction false} RunNotifications(st: LoopState, cycles: seq<Cycle>, asWritten: bool)
    ensures forall i | 0 <= i < |Run(st, cycles, asWritten)| :: NotifiesOnChange(Before(st, Run(st, cycles, asWritten), i), cycles[i], Run(st, cycles, asWritten)[i])
    decreases |cycles|
  {
    if cycles != [] && !cycles[0].wake.Cancelled? {
      var c := cycles[0];
      var step := Step(st, c, asWritten);
      var rest := Run(step.state, cycles[1..], asWritten);
      var r := Run(st, cycles, asWritten);
      assert r == [Turn(step.state, step.effects)] + rest;
      RunNotifications(step.state, cycles[1..], asWritten);
      StepNotifiesOnChange(st, c, asWritten);
      forall i | 0 <= i < |r| ensures NotifiesOnChange(Before(st, r, i), cycles[i], r[i]) {
        if i > 0 {
          assert r[i] == rest[i - 1] && cycles[i] == cycles[1..][i - 1] && Before(st, r, i) == Before(step.state, rest, i - 1);
        }
      }
    }
  }
}
