/** Autoscaler awareness of the Nomad client (backend/interfaces/nomadcluster/client.go):
    looking up horizontal (task group) and vertical (task) scaling policies in a job, and writing the
    live values an autoscaler chose back onto a job before it is registered.

    `strconv.Atoi` is an abstract partial parse `parse: string -> Option<int>`. */
module Scaling {
  import opened Wrappers
  import opened Nomad

  const PolicyVerticalCpu := "vertical_cpu"
  const PolicyVerticalMem := "vertical_mem"

  /** A task group's scaling block exists and is explicitly enabled. */
  predicate ScalingEnabled(tg: TaskGroup) {
    tg.scaling.Some? && tg.scaling.value.enabled == Some(true)
  }

  function GroupScalingIn(groups: seq<TaskGroup>, groupName: string): (r: bool)
    ensures r <==> exists i | 0 <= i < |groups| :: groups[i].name == groupName && ScalingEnabled(groups[i])
  {
    if groups == [] then false
    else if groups[0].name == groupName && ScalingEnabled(groups[0]) then true
    else
      var r := GroupScalingIn(groups[1..], groupName);
      assert forall i | 1 <= i < |groups| :: groups[i] == groups[1..][i - 1];
      r
  }

  /** hasGroupScaling: some task group of the job with this name has scaling enabled. */
  function HasGroupScaling(job: Job, groupName: string): (r: bool)
    ensures r <==> exists i | 0 <= i < |job.taskGroups| ::
      job.taskGroups[i].name == groupName && ScalingEnabled(job.taskGroups[i])
  {
    GroupScalingIn(job.taskGroups, groupName)
  }

  function PolicyIn(policies: seq<TaskScalingPolicy>, policyType: string): (r: bool)
    ensures r <==> exists i | 0 <= i < |policies| :: policies[i].policyType == policyType
  {
    if policies == [] then false
    else if policies[0].policyType == policyType then true
    else
      var r := PolicyIn(policies[1..], policyType);
      assert forall i | 1 <= i < |policies| :: policies[i] == policies[1..][i - 1];
      r
  }

  /** Some task of this name carries a scaling policy of this type. */
  predicate TaskHasPolicy(tasks: seq<Task>, taskName: string, policyType: string) {
    exists i | 0 <= i < |tasks| :: tasks[i].name == taskName && PolicyIn(tasks[i].scalingPolicies, policyType)
  }

  function TaskScalingIn(tasks: seq<Task>, taskName: string, policyType: string): (r: bool)
    ensures r <==> TaskHasPolicy(tasks, taskName, policyType)
  {
    if tasks == [] then false
    else if tasks[0].name == taskName && PolicyIn(tasks[0].scalingPolicies, policyType) then true
    else
      var r := TaskScalingIn(tasks[1..], taskName, policyType);
      assert forall i | 1 <= i < |tasks| :: tasks[i] == tasks[1..][i - 1];
      r
  }

  function GroupTaskScalingIn(groups: seq<TaskGroup>, groupName: string, taskName: string, policyType: string): (r: bool)
    ensures r <==> exists i | 0 <= i < |groups| ::
      groups[i].name == groupName && TaskHasPolicy(groups[i].tasks, taskName, policyType)
  {
    if groups == [] then false
    else if groups[0].name == groupName && TaskScalingIn(groups[0].tasks, taskName, policyType) then true
    else
      var r := GroupTaskScalingIn(groups[1..], groupName, taskName, policyType);
      assert forall i | 1 <= i < |groups| :: groups[i] == groups[1..][i - 1];
      r
  }

  /** hasTaskScaling: some task of this name, in some group of this name, has a policy of this type. */
  function HasTaskScaling(job: Job, groupName: string, taskName: string, policyType: string): (r: bool)
    ensures r <==> exists i | 0 <= i < |job.taskGroups| ::
      job.taskGroups[i].name == groupName && TaskHasPolicy(job.taskGroups[i].tasks, taskName, policyType)
  {
    GroupTaskScalingIn(job.taskGroups, groupName, taskName, policyType)
  }

  // ---------------------------------------------------------------------------------------------
  // The diff fields the copy-back reads, in the order the nested loops visit them.

  /** Old values of the fields named `fieldName` (and of type "Edited" when `editedOnly`). */
  function OldsInFields(fields: seq<FieldDiff>, fieldName: string, editedOnly: bool): (r: seq<string>)
    ensures forall x :: x in r <==> exists i | 0 <= i < |fields| ::
      fields[i].name == fieldName && (!editedOnly || fields[i].diffType == "Edited") && fields[i].oldValue == x
  {
    if fields == [] then []
    else
      var rest := OldsInFields(fields[1..], fieldName, editedOnly);
      assert forall i | 1 <= i < |fields| :: fields[i] == fields[1..][i - 1];
      if fields[0].name == fieldName && (!editedOnly || fields[0].diffType == "Edited") then [fields[0].oldValue] + rest
      else rest
  }

  /** Old values of Edited fields named `fieldName` inside the objects named "Resources". */
  function OldsInResources(objects: seq<ObjectDiff>, fieldName: string): (r: seq<string>)
    ensures forall x :: x in r <==> exists i | 0 <= i < |objects| ::
      objects[i].name == "Resources" && x in OldsInFields(objects[i].fields, fieldName, true)
  {
    if objects == [] then []
    else
      var rest := OldsInResources(objects[1..], fieldName);
      assert forall i | 1 <= i < |objects| :: objects[i] == objects[1..][i - 1];
      if objects[0].name == "Resources" then OldsInFields(objects[0].fields, fieldName, true) + rest
      else rest
  }

  function OldsInTaskDiffs(tasks: seq<TaskDiff>, taskName: string, fieldName: string): (r: seq<string>)
    ensures forall x :: x in r <==> exists i | 0 <= i < |tasks| ::
      tasks[i].name == taskName && x in OldsInResources(tasks[i].objects, fieldName)
  {
    if tasks == [] then []
    else
      var rest := OldsInTaskDiffs(tasks[1..], taskName, fieldName);
      assert forall i | 1 <= i < |tasks| :: tasks[i] == tasks[1..][i - 1];
      if tasks[0].name == taskName then OldsInResources(tasks[0].objects, fieldName) + rest
      else rest
  }

  /** Old values of a task's Edited resource field `fieldName` anywhere in the plan diff. */
  function ResourceOlds(groups: seq<TaskGroupDiff>, groupName: string, taskName: string, fieldName: string): (r: seq<string>)
    ensures forall x :: x in r <==> exists i | 0 <= i < |groups| ::
      groups[i].name == groupName && x in OldsInTaskDiffs(groups[i].tasks, taskName, fieldName)
  {
    if groups == [] then []
    else
      var rest := ResourceOlds(groups[1..], groupName, taskName, fieldName);
      assert forall i | 1 <= i < |groups| :: groups[i] == groups[1..][i - 1];
      if groups[0].name == groupName then OldsInTaskDiffs(groups[0].tasks, taskName, fieldName) + rest
      else rest
  }

  /** Old values of every "Count" field (of any diff type) of the task-group diffs with this name. */
  function CountOlds(groups: seq<TaskGroupDiff>, groupName: string): (r: seq<string>)
    ensures forall x :: x in r <==> exists i | 0 <= i < |groups| ::
      groups[i].name == groupName && x in OldsInFields(groups[i].fields, "Count", false)
  {
    if groups == [] then []
    else
      var rest := CountOlds(groups[1..], groupName);
      assert forall i | 1 <= i < |groups| :: groups[i] == groups[1..][i - 1];
      if groups[0].name == groupName then OldsInFields(groups[0].fields, "Count", false) + rest
      else rest
  }

  // ---------------------------------------------------------------------------------------------
  // Writing the values back.

  /** What the copy-back may do to one value: keep it, unless the policy applies and some old value
      parses, in which case it becomes the LAST parseable old value (later assignments win). */
  predicate ValueCopiedBack(before: Option<int>, after: Option<int>, applies: bool, olds: seq<string>, parse: string -> Option<int>) {
    if applies && exists i | 0 <= i < |olds| :: parse(olds[i]).Some? then
      exists i | 0 <= i < |olds| ::
        && parse(olds[i]).Some?
        && after == parse(olds[i])
        && forall j | i < j < |olds| :: parse(olds[j]).None?
    else
      after == before
  }

  /** The assignments of one innermost loop: each old value that parses overwrites the current one;
      a parse failure is logged and skipped. */
  function AssignParsed(current: Option<int>, olds: seq<string>, parse: string -> Option<int>): (r: Option<int>)
    ensures ValueCopiedBack(current, r, true, olds, parse)
    decreases |olds|
  {
    if olds == [] then current
    else
      var next := if parse(olds[0]).Some? then parse(olds[0]) else current;
      var r := AssignParsed(next, olds[1..], parse);
      assert forall i | 1 <= i < |olds| :: olds[i] == olds[1..][i - 1];
      assert ValueCopiedBack(current, r, true, olds, parse) by {
        if exists i | 1 <= i < |olds| :: parse(olds[i]).Some? {
          var i :| 0 <= i < |olds[1..]| && parse(olds[1..][i]).Some? && r == parse(olds[1..][i])
            && forall j | i < j < |olds[1..]| :: parse(olds[1..][j]).None?;
          assert parse(olds[i + 1]).Some? && r == parse(olds[i + 1]);
        } else if parse(olds[0]).Some? {
          assert r == parse(olds[0]);
        }
      }
      r
  }

  /** A task after the copy-back: every field but CPU and MemoryMB is untouched; CPU takes the live value of an
      Edited "CPU" resource diff when the task has a vertical_cpu policy; MemoryMB takes the live value of an Edited
      "Memory" resource diff when it has a vertical_mem policy. */
  predicate TaskCopiedBack(job: Job, diff: JobDiff, parse: string -> Option<int>, groupName: string, t: Task, t': Task) {
    && t'.name == t.name && t'.driver == t.driver && t'.scalingPolicies == t.scalingPolicies
    && ValueCopiedBack(t.resources.cpu, t'.resources.cpu,
        HasTaskScaling(job, groupName, t.name, PolicyVerticalCpu),
        ResourceOlds(diff.taskGroups, groupName, t.name, "CPU"), parse)
    && ValueCopiedBack(t.resources.memoryMB, t'.resources.memoryMB,
        HasTaskScaling(job, groupName, t.name, PolicyVerticalMem),
        ResourceOlds(diff.taskGroups, groupName, t.name, "Memory"), parse)
  }

  /** A task group after the copy-back: only Count and its tasks' resources may change, Count only
      from a "Count" diff field of a group with scaling enabled. */
  predicate GroupCopiedBack(job: Job, diff: JobDiff, parse: string -> Option<int>, tg: TaskGroup, tg': TaskGroup) {
    && tg'.name == tg.name && tg'.scaling == tg.scaling && tg'.services == tg.services
    && |tg'.tasks| == |tg.tasks|
    && (forall k | 0 <= k < |tg.tasks| :: TaskCopiedBack(job, diff, parse, tg.name, tg.tasks[k], tg'.tasks[k]))
    && ValueCopiedBack(tg.count, tg'.count, HasGroupScaling(job, tg.name), CountOlds(diff.taskGroups, tg.name), parse)
  }

  function CopyTask(job: Job, diff: JobDiff, parse: string -> Option<int>, groupName: string, t: Task): (r: Task)
    ensures TaskCopiedBack(job, diff, parse, groupName, t, r)
  {
    var cpu :=
      if HasTaskScaling(job, groupName, t.name, PolicyVerticalCpu)
      then AssignParsed(t.resources.cpu, ResourceOlds(diff.taskGroups, groupName, t.name, "CPU"), parse)
      else t.resources.cpu;
    var mem :=
      if HasTaskScaling(job, groupName, t.name, PolicyVerticalMem)
      then AssignParsed(t.resources.memoryMB, ResourceOlds(diff.taskGroups, groupName, t.name, "Memory"), parse)
      else t.resources.memoryMB;
    t.(resources := Resources(cpu, mem))
  }

  function CopyGroup(job: Job, diff: JobDiff, parse: string -> Option<int>, tg: TaskGroup): (r: TaskGroup)
    ensures GroupCopiedBack(job, diff, parse, tg, r)
  {
    var tasks := seq(|tg.tasks|, k requires 0 <= k < |tg.tasks| => CopyTask(job, diff, parse, tg.name, tg.tasks[k]));
    var count :=
      if HasGroupScaling(job, tg.name)
      then AssignParsed(tg.count, CountOlds(diff.taskGroups, tg.name), parse)
      else tg.count;
    tg.(tasks := tasks, count := count)
  }

  /** copyExistingAutoScalerChanges: only task-group counts and task CPU/MemoryMB change, each only as
      GroupCopiedBack allows; every other part of the job is untouched. */
  function CopyExistingAutoScalerChanges(job: Job, diff: JobDiff, parse: string -> Option<int>): (r: Job)
    ensures r.(taskGroups := job.taskGroups) == job
    ensures |r.taskGroups| == |job.taskGroups|
    ensures forall i | 0 <= i < |job.taskGroups| :: GroupCopiedBack(job, diff, parse, job.taskGroups[i], r.taskGroups[i])
  {
    job.(taskGroups := seq(|job.taskGroups|, i requires 0 <= i < |job.taskGroups| => CopyGroup(job, diff, parse, job.taskGroups[i])))
  }

  /** The copy-back never changes which scaling policies a job has, so hasGroupScaling and hasTaskScaling
      give the same answers before and after it. */
  lemma CopyBackKeepsScaling(job: Job, diff: JobDiff, parse: string -> Option<int>, groupName: string, taskName: string, policyType: string)
    ensures HasGroupScaling(CopyExistingAutoScalerChanges(job, diff, parse), groupName) == HasGroupScaling(job, groupName)
    ensures HasTaskScaling(CopyExistingAutoScalerChanges(job, diff, parse), groupName, taskName, policyType)
         == HasTaskScaling(job, groupName, taskName, policyType)
  {
    var r := CopyExistingAutoScalerChanges(job, diff, parse);
    forall i | 0 <= i < |job.taskGroups|
      ensures TaskHasPolicy(r.taskGroups[i].tasks, taskName, policyType) == TaskHasPolicy(job.taskGroups[i].tasks, taskName, policyType)
    {
      var tg, tg' := job.taskGroups[i], r.taskGroups[i];
      assert GroupCopiedBack(job, diff, parse, tg, tg');
      if TaskHasPolicy(tg.tasks, taskName, policyType) {
        var k :| 0 <= k < |tg.tasks| && tg.tasks[k].name == taskName && PolicyIn(tg.tasks[k].scalingPolicies, policyType);
        assert TaskCopiedBack(job, diff, parse, tg.name, tg.tasks[k], tg'.tasks[k]);
      }
      if TaskHasPolicy(tg'.tasks, taskName, policyType) {
        var k :| 0 <= k < |tg'.tasks| && tg'.tasks[k].name == taskName && PolicyIn(tg'.tasks[k].scalingPolicies, policyType);
        assert TaskCopiedBack(job, diff, parse, tg.name, tg.tasks[k], tg'.tasks[k]);
      }
    }
  }
}
