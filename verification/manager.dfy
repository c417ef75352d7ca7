/** The reconciliation manager (backend/application/reconcilationmanager.go): seeds the watcher with every
    stored source at start-up and forwards source additions and deletions to it. The watcher is the
    repository watcher of module Watcher; the reconciler each watch is registered with is OnReconcile,
    which the registry does not record. */
module Manager {
  import opened Wrappers
  import opened Errors
  import opened Domain
  import opened Application
  import opened Nomad
  import Watcher
  import Reconciler
  import NomadClient
  import ChangeDecision

  /** The IDs of the listed sources. */
  function ListedIDs(srcs: seq<Source>): set<string> {
    set i | 0 <= i < |srcs| :: srcs[i].id
  }

  /** The loop of CreateReconciliationManager over the listed sources: WatchSource for each in turn,
      stopping at the first error. */
  function WatchAll(reg: Watcher.Registry, srcs: seq<Source>): (r: Watcher.WatchResult)
    // WatchSource never fails, so every listed source is watched, and what was watched stays watched.
    ensures r.err.None?
    ensures reg.Keys <= r.registry.Keys
    ensures forall id | id in reg :: r.registry[id] == reg[id]
    decreases |srcs|
  {
    if srcs == [] then Watcher.WatchResult(reg, [], None)
    else
      var first := Watcher.WatchSource(reg, srcs[0]);
      if first.err.Some? then Watcher.WatchResult(first.registry, first.published, first.err)
      else
        var rest := WatchAll(first.registry, srcs[1..]);
        Watcher.WatchResult(rest.registry, first.published + rest.published, rest.err)
  }

  /** CreateReconciliationManager: the listing's error, or the registry after watching every listed source
      (`listed` is what ListSources returned, `reg` the watcher's registry). */
  function CreateReconciliationManager(reg: Watcher.Registry, listed: Result<seq<Source>, Error>): (r: Watcher.WatchResult)
    ensures listed.Failure? ==> r == Watcher.WatchResult(reg, [], Some(listed.error))
  {
    match listed
    case Failure(e) => Watcher.WatchResult(reg, [], Some(e))
    case Success(srcs) => WatchAll(reg, srcs)
  }

  lemma ListedIDsCons(srcs: seq<Source>)
    requires srcs != []
    ensures ListedIDs(srcs) == {srcs[0].id} + ListedIDs(srcs[1..])
  {
    assert forall i | 1 <= i < |srcs| :: srcs[i] == srcs[1..][i - 1];
    forall id | id in ListedIDs(srcs) ensures id in {srcs[0].id} + ListedIDs(srcs[1..]) {
      var i :| 0 <= i < |srcs| && srcs[i].id == id;
      if i > 0 {
        assert srcs[1..][i - 1].id == id;
      }
    }
  }

  /** Watching the listed sources never fails, registers exactly their IDs besides those already watched,
      keeps every watched entry, and gives a newly watched ID the first listed source with that ID. */
  lemma {:induction false} WatchAllRegisters(reg: Watcher.Registry, srcs: seq<Source>)
    ensures WatchAll(reg, srcs).err.None?
    ensures WatchAll(reg, srcs).registry.Keys == reg.Keys + ListedIDs(srcs)
    ensures forall id | id in reg :: WatchAll(reg, srcs).registry[id] == reg[id]
    ensures forall i | 0 <= i < |srcs| && srcs[i].id !in reg && (forall j | 0 <= j < i :: srcs[j].id != srcs[i].id) ::
      WatchAll(reg, srcs).registry[srcs[i].id] == srcs[i]
    decreases |srcs|
  {
    if srcs != [] {
      var first := Watcher.WatchSource(reg, srcs[0]);
      WatchAllRegisters(first.registry, srcs[1..]);
      ListedIDsCons(srcs);
      forall i | 0 <= i < |srcs| && srcs[i].id !in reg && (forall j | 0 <= j < i :: srcs[j].id != srcs[i].id)
        ensures WatchAll(reg, srcs).registry[srcs[i].id] == srcs[i]
      {
        if i > 0 {
          assert srcs[1..][i - 1] == srcs[i];
          assert forall j | 0 <= j < i - 1 :: srcs[1..][j] == srcs[j + 1];
        }
      }
    }
  }

  /** After a successful start on an empty watcher the registry's keys are exactly the listed IDs, whatever
      duplicates the listing holds; a failed listing is returned with nothing watched. */
  lemma ManagerWatchesListedSources(listed: Result<seq<Source>, Error>)
    ensures listed.Success? ==>
      && CreateReconciliationManager(map[], listed).err.None?
      && CreateReconciliationManager(map[], listed).registry.Keys == ListedIDs(listed.value)
    ensures listed.Failure? ==>
      && CreateReconciliationManager(map[], listed).err == Some(listed.error)
      && CreateReconciliationManager(map[], listed).registry == map[]
  {
    if listed.Success? {
      WatchAllRegisters(map[], listed.value);
    }
  }

  /** OnAddedSource: watches the source, returning the watcher's error (none with this watcher). */
  function OnAddedSource(reg: Watcher.Registry, src: Source): (r: Watcher.WatchResult)
    ensures r.err.None? && src.id in r.registry
    ensures src.id in reg ==> r.registry == reg
    ensures src.id !in reg ==> r.registry[src.id] == src && r.registry.Keys == reg.Keys + {src.id}
  {
    Watcher.WatchSource(reg, src)
  }

  /** OnDeletedSource: stops the source's watch, returning the watcher's error (none with this watcher). */
  function OnDeletedSource(reg: Watcher.Registry, id: string): (r: (Watcher.Registry, Option<Error>))
    ensures r.1.None? && id !in r.0
    ensures r.0.Keys == reg.Keys - {id}
  {
    Watcher.StopSourceWatch(reg, id)
  }

  /** Adding a source and then deleting it leaves a registry that did not watch it as it was. */
  lemma AddThenDelete(reg: Watcher.Registry, src: Source)
    requires src.id !in reg
    ensures OnDeletedSource(OnAddedSource(reg, src).registry, src.id).0 == reg
  {
    Watcher.StopUndoesWatch(reg, src);
  }

  /** With the Nomad client's UpdateJob as the cluster, which never reports a job created, a reconciliation
      never fills Create: every change to a desired job is an update. */
  lemma {:induction false} ClientNeverCreates(src: Source, desired: DesiredState, restart: bool,
                                              nsRegister: JobInfo -> Option<Error>, plan: Job -> Result<JobDiff, Error>,
                                              latest: JobInfo -> Result<Option<string>, Error>, register: Job -> Option<Error>,
                                              parse: string -> Option<int>, now: string)
    ensures Reconciler.Creations(desired, (j: JobInfo) => NomadClient.UpdateJob(src, j, restart, nsRegister(j), plan, latest(j), register, parse, now).result) == map[]
  {
    var updateJob := (j: JobInfo) => NomadClient.UpdateJob(src, j, restart, nsRegister(j), plan, latest(j), register, parse, now).result;
    forall k | k in desired.jobs && updateJob(desired.jobs[k]).Success? ensures !updateJob(desired.jobs[k]).value.created {
      var j := desired.jobs[k];
      var o := NomadClient.UpdateJob(src, j, restart, nsRegister(j), plan, latest(j), register, parse, now);
      assert updateJob(j) == o.result;
    }
  }

  /** With the Nomad client's UpdateJob as the cluster, every job a reconciliation files under Update is the
      job as UpdateJob left it: claimed for the source, with its metadata naming the source's ID. */
  lemma {:induction false} ClientUpdatesAreClaimed(src: Source, desired: DesiredState, restart: bool,
                                                   nsRegister: JobInfo -> Option<Error>, plan: Job -> Result<JobDiff, Error>,
                                                   latest: JobInfo -> Result<Option<string>, Error>, register: Job -> Option<Error>,
                                                   parse: string -> Option<int>, now: string)
    ensures var updateJob := (j: JobInfo) => NomadClient.UpdateJob(src, j, restart, nsRegister(j), plan, latest(j), register, parse, now).result;
      forall k | k in Reconciler.Updates(src, desired, updateJob) ::
        && ChangeDecision.MetaKeySrcID in Reconciler.Updates(src, desired, updateJob)[k].job.meta
        && Reconciler.Updates(src, desired, updateJob)[k].job.meta[ChangeDecision.MetaKeySrcID] == src.id
  {
    var updateJob := (j: JobInfo) => NomadClient.UpdateJob(src, j, restart, nsRegister(j), plan, latest(j), register, parse, now).result;
    forall k | k in Reconciler.Updates(src, desired, updateJob)
      ensures ChangeDecision.MetaKeySrcID in Reconciler.Updates(src, desired, updateJob)[k].job.meta
      ensures Reconciler.Updates(src, desired, updateJob)[k].job.meta[ChangeDecision.MetaKeySrcID] == src.id
    {
      var j := desired.jobs[k];
      NomadClient.UpdateJobLeavesJobStamped(src, j, restart, nsRegister(j), plan, latest(j), register, parse, now);
      assert updateJob(j) == NomadClient.UpdateJob(src, j, restart, nsRegister(j), plan, latest(j), register, parse, now).result;
    }
  }
}
