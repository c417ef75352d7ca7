/** The parts of the Nomad API types the core reads or writes: the job tree (api.Job) and the
    structured plan diff (api.JobDiff) returned by a job plan. Go pointers that may be nil are `Option`s. */
module Nomad {
  import opened Wrappers

  datatype Resources = Resources(cpu: Option<int>, memoryMB: Option<int>)

  /** A task-level scaling policy; its `policyType` is e.g. "vertical_cpu" or "vertical_mem". */
  datatype TaskScalingPolicy = TaskScalingPolicy(policyType: string)

  datatype Task = Task(
    name: string,
    driver: string,
    resources: Resources,
    scalingPolicies: seq<TaskScalingPolicy>)

  /** A task group's horizontal scaling block. */
  datatype GroupScaling = GroupScaling(enabled: Option<bool>)

  datatype Service = Service(name: string, portLabel: string)

  datatype TaskGroup = TaskGroup(
    name: string,
    count: Option<int>,
    scaling: Option<GroupScaling>,
    tasks: seq<Task>,
    services: seq<Service>)

  datatype PeriodicConfig = PeriodicConfig(enabled: Option<bool>)

  datatype Job = Job(
    id: Option<string>,
    name: Option<string>,
    namespace: Option<string>,
    region: Option<string>,
    jobType: Option<string>,
    status: Option<string>,
    statusDescription: Option<string>,
    datacenters: seq<string>,
    parentID: Option<string>,
    periodic: Option<PeriodicConfig>,
    meta: map<string, string>,
    taskGroups: seq<TaskGroup>)

  /** One changed field of the plan diff; `diffType` is "Added", "Deleted", "Edited" or "None". */
  datatype FieldDiff = FieldDiff(diffType: string, name: string, oldValue: string, newValue: string)

  datatype ObjectDiff = ObjectDiff(
    diffType: string,
    name: string,
    fields: seq<FieldDiff>,
    objects: seq<ObjectDiff>)

  datatype TaskDiff = TaskDiff(
    diffType: string,
    name: string,
    fields: seq<FieldDiff>,
    objects: seq<ObjectDiff>)

  datatype TaskGroupDiff = TaskGroupDiff(
    diffType: string,
    name: string,
    fields: seq<FieldDiff>,
    objects: seq<ObjectDiff>,
    tasks: seq<TaskDiff>)

  datatype JobDiff = JobDiff(
    diffType: string,
    id: string,
    fields: seq<FieldDiff>,
    objects: seq<ObjectDiff>,
    taskGroups: seq<TaskGroupDiff>)

  /** A job list entry as returned by the job listing (with meta requested). */
  datatype JobStub = JobStub(name: string, namespace: string, meta: map<string, string>)

  /** Go's `m[k]` on a map[string]string: the zero value "" for a missing key. */
  function MetaGet(m: map<string, string>, k: string): string {
    if k in m then m[k] else ""
  }
}
