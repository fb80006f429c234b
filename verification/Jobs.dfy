/** Parsed job descriptions, as far as the renderers and the deployment look at them. */
module Jobs {
  import opened UnitNames

  datatype TaskType = Service | Oneshot | Proxy

  /** `vtype` is "local", "instance" or "". */
  datatype Volume = Volume(path: string, vtype: string, hostPath: string, options: seq<string>, mountOptions: seq<string>) {
    predicate IsLocal() { vtype == "local" }
  }

  datatype SecretTarget = ToEnvironment | ToFile | NoTarget

  /** `tcpLinks` tells for each link whether it is of type tcp. */
  datatype Task = Task(name: string, originalIndex: int, taskType: TaskType, timer: string,
                       after: seq<string>, volumesFrom: seq<string>, volumes: seq<Volume>,
                       tcpLinks: seq<bool>, network: string, hasMetrics: bool, secrets: seq<SecretTarget>)

  datatype TaskGroup = TaskGroup(name: string, count: nat, global: bool, restartAll: bool, tasks: seq<Task>)
  {
    predicate Valid() {
      && ValidGroupName(name) && count > 0 && |tasks| > 0
      && (forall i :: 0 <= i < |tasks| ==> ValidTaskName(tasks[i].name) && LinksExist(tasks, tasks[i]))
      && DistinctNames(tasks)
    }
  }

  datatype Job = Job(name: string, groups: seq<TaskGroup>) {
    /** The part of Job.Validate the properties rest on. */
    predicate Valid() {
      && ValidJobName(name) && |groups| > 0
      && (forall i :: 0 <= i < |groups| ==> groups[i].Valid())
      && (forall i, j :: 0 <= i < j < |groups| ==> groups[i].name != groups[j].name)
    }

    function MaxCount(): (max: nat)
      ensures forall i :: 0 <= i < |groups| ==> groups[i].count <= max
    {
      MaxOf(groups)
    }
  }

  function MaxOf(groups: seq<TaskGroup>): (max: nat)
    ensures forall i :: 0 <= i < |groups| ==> groups[i].count <= max
    ensures |groups| > 0 ==> exists i :: 0 <= i < |groups| && groups[i].count == max
  {
    if groups == [] then 0
    else
      var rest := MaxOf(groups[1..]);
      if groups[0].count > rest then groups[0].count
      else if |groups| == 1 then assert groups[0].count == rest; rest
      else
        var k :| 0 <= k < |groups[1..]| && groups[1..][k].count == rest;
        assert groups[k + 1].count == rest;
        rest
  }

  predicate DistinctNames(tasks: seq<Task>) {
    forall i, j :: 0 <= i < j < |tasks| ==> tasks[i].name != tasks[j].name
  }

  predicate HasTask(tasks: seq<Task>, name: string) {
    exists i :: 0 <= i < |tasks| && tasks[i].name == name
  }

  predicate HasGroup(groups: seq<TaskGroup>, name: string) {
    exists i :: 0 <= i < |groups| && groups[i].name == name
  }

  /** All tasks named in After and VolumesFrom exist. */
  predicate LinksExist(tasks: seq<Task>, t: Task) {
    && (forall n :: n in t.after ==> HasTask(tasks, n))
    && (forall n :: n in t.volumesFrom ==> HasTask(tasks, n))
  }

  /** The index of the first task with this name, or -1. */
  function IndexByName(tasks: seq<Task>, name: string): (r: int)
    ensures -1 <= r < |tasks|
    ensures r >= 0 ==> tasks[r].name == name
    ensures r < 0 <==> !HasTask(tasks, name)
  {
    if tasks == [] then -1
    else if tasks[0].name == name then 0
    else
      var rest := IndexByName(tasks[1..], name);
      assert forall i :: 0 <= i < |tasks[1..]| ==> tasks[1..][i] == tasks[i + 1];
      if rest < 0 then -1 else rest + 1
  }

  lemma IndexIsUnique(tasks: seq<Task>, i: nat)
    requires DistinctNames(tasks) && i < |tasks|
    ensures IndexByName(tasks, tasks[i].name) == i
  {
    assert HasTask(tasks, tasks[i].name);
  }
}
