/**
From a task group to the containers of its pods: what createPodSpec relies on is what
groupTaskIntoPods provides.
*/
module PodRender {
  import opened Wrappers
  import opened Jobs
  import opened PodSort
  import opened Pods
  import opened PodBuild
  import opened PodTheorems
  import opened PodSpec

  datatype RenderError = PodFailed(pod: PodError) | SpecFailed(spec: SpecError)

  /** In a pod without service tasks no container of a task runs before the container of a one-shot task it comes after. */
  ghost predicate RunsInOrder(tasks: seq<Task>, order: seq<ContainerKind>) {
    (forall t :: t in tasks ==> !t.taskType.Service?) ==>
      forall y, n, a, b ::
        y in tasks && n in y.after && n != y.name && 0 <= a < |order| && 0 <= b < |order| && order[a] == Main(n) && order[b].task == y.name
        ==> a < b
  }

  /** The pods of a valid group have all tasks their tasks name, each task once. */
  lemma PodsAreClosed(tg: TaskGroup, k: nat)
    requires tg.Valid() && CanFinish(tg) && BuildPods(tg).Ok? && k < |BuildPods(tg).value|
    ensures var tasks := BuildPods(tg).value[k].tasks;
            DistinctNames(tasks) && ClosedPod(tasks) && (!tg.restartAll ==> AfterOrdered(tasks))
  {
    var tasks := BuildPods(tg).value[k].tasks;
    if tg.restartAll {
      assert BuildPods(tg).value == [PodValue(0, ResourceName(tg.name), tg.tasks)];
      GroupIsClosed(tg);
    } else {
      hide BuildPods, CanFinish;
      PodsPartitionTasks(tg);
      PodsAreOrdered(tg, k);
      assert forall p, n :: 0 <= p < |tasks| && n in tasks[p].after ==> IndexByName(tasks, n) <= p;
    }
  }

  lemma GroupIsClosed(tg: TaskGroup)
    requires tg.Valid()
    ensures ClosedPod(tg.tasks)
  {
    forall x, m | x in tg.tasks && m in x.volumesFrom ensures HasTask(tg.tasks, m) {
      var i :| 0 <= i < |tg.tasks| && tg.tasks[i] == x;
      assert LinksExist(tg.tasks, tg.tasks[i]);
    }
  }

  lemma SpecRunsInOrder(tasks: seq<Task>, spec: Spec)
    requires DistinctNames(tasks) && AfterOrdered(tasks) && spec.RunOrder() == InitKinds(tasks) + MainKinds(tasks)
    ensures RunsInOrder(tasks, spec.RunOrder())
  {
    hide AfterOrdered, DistinctNames, InitKinds, MainKinds, Spec.RunOrder;
    if forall t :: t in tasks ==> !t.taskType.Service? {
      var order := spec.RunOrder();
      forall y, n, a, b | y in tasks && n in y.after && n != y.name && 0 <= a < |order| && 0 <= b < |order|
                          && order[a] == Main(n) && order[b].task == y.name
        ensures a < b
      {
        OneshotsRunInOrder(tasks, spec, n, y, a, b);
      }
    }
  }

  /**
  The specs of all pods of a valid group. A spec fails only for a volume that is not local, never
  for a missing task; no container is lost or doubled; and one-shot containers run in After order.
  */
  method RenderPods(tg: TaskGroup) returns (r: Result<seq<Spec>, RenderError>)
    requires tg.Valid() && CanFinish(tg)
    ensures BuildPods(tg).Err? ==> r == Err(PodFailed(BuildPods(tg).error))
    ensures BuildPods(tg).Ok? ==> (r.Err? <==> HasRemoteVolume(tg.tasks))
    ensures BuildPods(tg).Ok? && r.Err? ==> r.error == SpecFailed(VolumeNotSupported)
    ensures r.Ok? ==> |r.value| == |BuildPods(tg).value|
    ensures r.Ok? ==> forall k :: 0 <= k < |r.value| ==>
              var tasks := BuildPods(tg).value[k].tasks;
              && RightContainers(tasks, r.value[k]) && MountedRight(tasks, r.value[k].init + r.value[k].containers)
              && (!tg.restartAll ==> RunsInOrder(tasks, r.value[k].RunOrder()))
  {
    hide BuildPods, CanFinish, RunsInOrder, RightContainers, MountedRight, Spec.RunOrder, InitKinds, MainKinds, HasRemoteVolume, ClosedPod, AfterOrdered;
    var grouped := GroupTaskIntoPods(tg);
    if grouped.Err? { return Err(PodFailed(grouped.error)); }
    var pods := grouped.value;
    var specs: seq<Spec> := [];
    for k := 0 to |pods|
      invariant |specs| == k
      invariant forall i :: 0 <= i < k ==>
                  var tasks := pods[i].tasks;
                  && RightContainers(tasks, specs[i]) && MountedRight(tasks, specs[i].init + specs[i].containers)
                  && !HasRemoteVolume(tasks)
                  && (!tg.restartAll ==> RunsInOrder(tasks, specs[i].RunOrder()))
    {
      PodsAreClosed(tg, k);
      var spec := CreatePodSpec(pods[k].tasks);
      if spec.Err? {
        RemoteInGroup(tg, k);
        return Err(SpecFailed(spec.error));
      }
      if !tg.restartAll { SpecRunsInOrder(pods[k].tasks, spec.value); }
      specs := specs + [spec.value];
    }
    NoneRemote(tg);
    r := Ok(specs);
  }

  lemma NoneRemote(tg: TaskGroup)
    requires tg.Valid() && CanFinish(tg) && BuildPods(tg).Ok?
    ensures (forall k :: 0 <= k < |BuildPods(tg).value| ==> !HasRemoteVolume(BuildPods(tg).value[k].tasks)) ==> !HasRemoteVolume(tg.tasks)
  {
    if x, v :| x in tg.tasks && v in x.volumes && !v.IsLocal() {
      var pods := BuildPods(tg).value;
      if tg.restartAll {
        assert pods == [PodValue(0, ResourceName(tg.name), tg.tasks)] && HasRemoteVolume(pods[0].tasks);
      } else {
        hide BuildPods, CanFinish;
        PodsPartitionTasks(tg);
        var k :| 0 <= k < |pods| && x in pods[k].tasks;
        assert HasRemoteVolume(pods[k].tasks);
      }
    }
  }

  lemma RemoteInGroup(tg: TaskGroup, k: nat)
    requires tg.Valid() && CanFinish(tg) && BuildPods(tg).Ok? && k < |BuildPods(tg).value|
    requires HasRemoteVolume(BuildPods(tg).value[k].tasks)
    ensures HasRemoteVolume(tg.tasks)
  {
    var pods := BuildPods(tg).value;
    var x, v :| x in pods[k].tasks && v in x.volumes && !v.IsLocal();
    if tg.restartAll {
      assert pods == [PodValue(0, ResourceName(tg.name), tg.tasks)];
    } else {
      hide BuildPods, CanFinish;
      PodsPartitionTasks(tg);
    }
    assert x in tg.tasks;
  }
}
