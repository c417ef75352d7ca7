/** The change-worthiness decision of the Nomad client (hasUpdate in
    backend/interfaces/nomadcluster/client.go): given the structured plan diff between the desired and
    the live job, plus the `restart` and `force` flags, decide whether the job must be registered.
    Commit-hash metadata and autoscaler-owned values (a scaled group's Count, a vertically scaled
    task's CPU/MemoryMB) do not count as drift on their own. */
module ChangeDecision {
  import opened Nomad
  import opened Scaling

  const MetaKeyOps := "nomadops"
  const MetaKeySrcID := "nomadopssrcid"
  const MetaKeySrcUrl := "nomadopssrcurl"
  const MetaKeySrcCommit := "nomadopssrccommit"
  const MetaKeyForceRestart := "nomadopsforcerestart"

  /** The diff field name of a job metadata key, as fmt.Sprintf("Meta[%s]", key). */
  function MetaFieldName(key: string): string {
    "Meta[" + key + "]"
  }

  // ---------------------------------------------------------------------------------------------
  // Declarative reading of the rule.

  /** Every field of a task's resource object is CPU, MemoryMB, or unchanged (type "None"). */
  predicate OnlyCpuAndMemoryFields(fields: seq<FieldDiff>) {
    forall i | 0 <= i < |fields| :: fields[i].name == "CPU" || fields[i].name == "MemoryMB" || fields[i].diffType == "None"
  }

  predicate TaskChanged(t: TaskDiff) {
    |t.fields| > 0 || |t.objects| > 0
  }

  /** A task diff that an autoscaler could have caused: no field changes, and its object changes (if any)
      are a single Resources object touching only CPU/MemoryMB, on a task with a vertical policy. */
  predicate TaskAutoscalerOnly(job: Job, groupName: string, t: TaskDiff) {
    && |t.fields| == 0
    && (|t.objects| > 0 ==>
          && |t.objects| == 1
          && t.objects[0].name == "Resources"
          && OnlyCpuAndMemoryFields(t.objects[0].fields)
          && (HasTaskScaling(job, groupName, t.name, PolicyVerticalCpu) || HasTaskScaling(job, groupName, t.name, PolicyVerticalMem)))
  }

  /** The group's objects carry a real change: anything but one bare "Scaling" object. */
  predicate GroupObjectsChanged(tg: TaskGroupDiff) {
    |tg.objects| > 0 &&
    (|tg.objects| > 1 || tg.objects[0].name != "Scaling" || |tg.objects[0].fields| > 0 || |tg.objects[0].objects| > 0)
  }

  predicate GroupChanged(tg: TaskGroupDiff) {
    |tg.fields| > 0 || GroupObjectsChanged(tg) || exists k | 0 <= k < |tg.tasks| :: TaskChanged(tg.tasks[k])
  }

  /** A task-group diff that an autoscaler could have caused: at most a lone Count change on a group with
      scaling enabled, no real object change, and only autoscaler-only task changes. */
  predicate GroupAutoscalerOnly(job: Job, tg: TaskGroupDiff) {
    && (|tg.fields| > 0 ==> |tg.fields| == 1 && tg.fields[0].name == "Count" && HasGroupScaling(job, tg.name))
    && !GroupObjectsChanged(tg)
    && forall k | 0 <= k < |tg.tasks| :: TaskAutoscalerOnly(job, tg.name, tg.tasks[k])
  }

  /** Top-level field changes count unless they are a single commit or force-restart stamp; with `force` or
      `restart` even those count. */
  predicate TopFieldsSignificant(fields: seq<FieldDiff>, restart: bool, force: bool) {
    |fields| > 0 &&
    (|fields| != 1
     || (fields[0].name != MetaFieldName(MetaKeySrcCommit) && fields[0].name != MetaFieldName(MetaKeyForceRestart))
     || force || restart)
  }

  /** The decision rule: any top-level object change applies; otherwise there must be some change, and it
      applies when a flag is set or when not every task-group change is autoscaler-owned. */
  predicate UpdateRequired(job: Job, diff: JobDiff, restart: bool, force: bool) {
    || |diff.objects| > 0
    || (&& ((exists i | 0 <= i < |diff.taskGroups| :: GroupChanged(diff.taskGroups[i])) || TopFieldsSignificant(diff.fields, restart, force))
        && (restart || force || !(forall i | 0 <= i < |diff.taskGroups| :: GroupAutoscalerOnly(job, diff.taskGroups[i]))))
  }

  // ---------------------------------------------------------------------------------------------
  // The scan as Go's code performs it: two flags updated while walking the task groups and their tasks.

  /** `changesOnlyContainAutoScaler` and `hasChanges`. */
  datatype ScanState = ScanState(onlyAutoscaler: bool, hasChanges: bool)

  /** The resource-field check, stopping at the first field that is neither CPU, MemoryMB nor unchanged. */
  function OnlyCpuAndMemory(fields: seq<FieldDiff>): (r: bool)
    ensures r <==> OnlyCpuAndMemoryFields(fields)
  {
    if fields == [] then true
    else if fields[0].name != "CPU" && fields[0].name != "MemoryMB" && fields[0].diffType != "None" then false
    else
      var r := OnlyCpuAndMemory(fields[1..]);
      assert forall i | 1 <= i < |fields| :: fields[i] == fields[1..][i - 1];
      r
  }

  /** One iteration of the task loop. */
  function ScanTask(job: Job, groupName: string, t: TaskDiff, acc: ScanState): ScanState {
    var acc := if |t.fields| > 0 then ScanState(false, true) else acc;
    if |t.objects| == 0 then acc
    else
      var only := acc.onlyAutoscaler && |t.objects| <= 1;
      var only :=
        if t.objects[0].name != "Resources" then false
        else if !OnlyCpuAndMemory(t.objects[0].fields) then false
        else only;
      var only :=
        if !HasTaskScaling(job, groupName, t.name, PolicyVerticalCpu) && !HasTaskScaling(job, groupName, t.name, PolicyVerticalMem)
        then false
        else only;
      ScanState(only, true)
  }

  function ScanTasks(job: Job, groupName: string, tasks: seq<TaskDiff>, acc: ScanState): (r: ScanState)
    ensures r.hasChanges <==> acc.hasChanges || exists k | 0 <= k < |tasks| :: TaskChanged(tasks[k])
    ensures r.onlyAutoscaler <==> acc.onlyAutoscaler && forall k | 0 <= k < |tasks| :: TaskAutoscalerOnly(job, groupName, tasks[k])
  {
    if tasks == [] then acc
    else
      assert forall k | 1 <= k < |tasks| :: tasks[k] == tasks[1..][k - 1];
      ScanTasks(job, groupName, tasks[1..], ScanTask(job, groupName, tasks[0], acc))
  }

  /** One iteration of the task-group loop: its fields, its objects, then its tasks. */
  function ScanGroup(job: Job, tg: TaskGroupDiff, acc: ScanState): ScanState {
    var acc :=
      if |tg.fields| > 0 then
        if |tg.fields| > 1 || tg.fields[0].name != "Count" || !HasGroupScaling(job, tg.name)
        then ScanState(false, true)
        else acc.(hasChanges := true)
      else acc;
    var acc :=
      if |tg.objects| > 0 then
        var acc := if |tg.objects| > 1 then ScanState(false, true) else acc;
        var acc := if tg.objects[0].name != "Scaling" then ScanState(false, true) else acc;
        if |tg.objects[0].fields| > 0 || |tg.objects[0].objects| > 0 then ScanState(false, true) else acc
      else acc;
    ScanTasks(job, tg.name, tg.tasks, acc)
  }

  function ScanGroups(job: Job, groups: seq<TaskGroupDiff>, acc: ScanState): (r: ScanState)
    ensures r.hasChanges <==> acc.hasChanges || exists i | 0 <= i < |groups| :: GroupChanged(groups[i])
    ensures r.onlyAutoscaler <==> acc.onlyAutoscaler && forall i | 0 <= i < |groups| :: GroupAutoscalerOnly(job, groups[i])
  {
    if groups == [] then acc
    else
      assert forall i | 1 <= i < |groups| :: groups[i] == groups[1..][i - 1];
      ScanGroups(job, groups[1..], ScanGroup(job, groups[0], acc))
  }

  /** hasUpdate: whether the plan diff is worth registering the job for. */
  function HasUpdate(job: Job, diff: JobDiff, restart: bool, force: bool): (r: bool)
    ensures r <==> UpdateRequired(job, diff, restart, force)
  {
    if |diff.objects| > 0 then true
    else
      var scan := ScanGroups(job, diff.taskGroups, ScanState(true, false));
      var hasChanges := scan.hasChanges || TopFieldsSignificant(diff.fields, restart, force);
      if !hasChanges then false
      else if restart then true
      else if force then true
      else if scan.onlyAutoscaler then false
      else true
  }

  // ---------------------------------------------------------------------------------------------
  // Consequences.

  /** Any top-level object change is an update, whatever the flags. */
  lemma TopLevelObjectsAlwaysUpdate(job: Job, diff: JobDiff, restart: bool, force: bool)
    requires |diff.objects| > 0
    ensures HasUpdate(job, diff, restart, force)
  {
  }

  /** Without top-level objects and task-group entries, only the flags decide: top-level field changes
      (including a commit stamp alone) are applied exactly when `restart` or `force` is set. */
  lemma TopFieldsNeedAFlag(job: Job, diff: JobDiff, restart: bool, force: bool)
    requires |diff.objects| == 0 && |diff.taskGroups| == 0
    ensures HasUpdate(job, diff, restart, force) <==> |diff.fields| > 0 && (restart || force)
  {
  }

  /** An empty diff is never an update, whatever the flags. */
  lemma EmptyDiffIsNoUpdate(job: Job, diff: JobDiff, restart: bool, force: bool)
    requires diff.fields == [] && diff.objects == [] && diff.taskGroups == []
    ensures !HasUpdate(job, diff, restart, force)
  {
  }

  /** Setting either flag never turns an update into a non-update. */
  lemma FlagsAreMonotone(job: Job, diff: JobDiff, restart: bool, force: bool)
    requires HasUpdate(job, diff, restart, force)
    ensures HasUpdate(job, diff, true, force) && HasUpdate(job, diff, restart, true)
  {
  }

  /** A lone Count change on a task group is an update exactly when the group has no enabled scaling. */
  lemma CountOnlyChange(job: Job, diff: JobDiff, tg: TaskGroupDiff, count: FieldDiff)
    requires diff.fields == [] && diff.objects == [] && diff.taskGroups == [tg]
    requires tg.fields == [count] && count.name == "Count" && tg.objects == [] && tg.tasks == []
    ensures HasUpdate(job, diff, false, false) <==> !HasGroupScaling(job, tg.name)
  {
    assert GroupChanged(diff.taskGroups[0]);
  }

  /** A lone "Scaling" object with no nested changes is no change at all. */
  lemma BareScalingObjectIsNoChange(job: Job, diff: JobDiff, tg: TaskGroupDiff, restart: bool, force: bool)
    requires diff.fields == [] && diff.objects == [] && diff.taskGroups == [tg]
    requires tg.fields == [] && |tg.objects| == 1 && tg.tasks == []
    requires tg.objects[0].name == "Scaling" && tg.objects[0].fields == [] && tg.objects[0].objects == []
    ensures !HasUpdate(job, diff, restart, force)
  {
  }

  /** Any task-level field change is an update, whatever the flags. */
  lemma TaskFieldChangeIsUpdate(job: Job, diff: JobDiff, i: nat, k: nat, restart: bool, force: bool)
    requires |diff.objects| == 0
    requires i < |diff.taskGroups| && k < |diff.taskGroups[i].tasks|
    requires |diff.taskGroups[i].tasks[k].fields| > 0
    ensures HasUpdate(job, diff, restart, force)
  {
    assert TaskChanged(diff.taskGroups[i].tasks[k]);
    assert !TaskAutoscalerOnly(job, diff.taskGroups[i].name, diff.taskGroups[i].tasks[k]);
    assert GroupChanged(diff.taskGroups[i]);
    assert !GroupAutoscalerOnly(job, diff.taskGroups[i]);
  }

  /** A task whose only change is in its objects: ignored (without flags) exactly when it is one Resources
      object touching only CPU/MemoryMB, on a task with a vertical_cpu or a vertical_mem policy. */
  lemma TaskObjectChange(job: Job, diff: JobDiff, tg: TaskGroupDiff, t: TaskDiff)
    requires diff.fields == [] && diff.objects == [] && diff.taskGroups == [tg]
    requires tg.fields == [] && tg.objects == [] && tg.tasks == [t]
    requires t.fields == [] && |t.objects| > 0
    ensures !HasUpdate(job, diff, false, false) <==>
      && |t.objects| == 1
      && t.objects[0].name == "Resources"
      && (forall i | 0 <= i < |t.objects[0].fields| ::
            t.objects[0].fields[i].name in {"CPU", "MemoryMB"} || t.objects[0].fields[i].diffType == "None")
      && (HasTaskScaling(job, tg.name, t.name, PolicyVerticalCpu) || HasTaskScaling(job, tg.name, t.name, PolicyVerticalMem))
  {
    assert TaskChanged(tg.tasks[0]);
    assert GroupChanged(diff.taskGroups[0]);
  }
}
