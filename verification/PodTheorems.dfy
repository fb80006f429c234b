/** What the pods of a task group are: a partition of its tasks into ordered, closed components. */
module PodTheorems {
  import opened Wrappers
  import opened Graph
  import opened Jobs
  import opened UnitNames
  import opened PodSort
  import opened Pods
  import opened PodBuild

  /** The group is split into pods, and that succeeds. */
  ghost predicate Splits(tg: TaskGroup) {
    DistinctNames(tg.tasks) && !tg.restartAll && CanFinish(tg) && BuildPods(tg).Ok?
  }

  lemma FirstErrorNone(pods: seq<PodValue>)
    ensures FirstError(pods).None? <==> forall k :: 0 <= k < |pods| ==> Validate(pods[k].name, pods[k].tasks).None?
  {
    if pods != [] {
      FirstErrorNone(pods[1..]);
      assert pods == [pods[0]] + pods[1..];
    }
  }

  /** How the pods come out of the grouping. */
  lemma PodsComeFrom(tg: TaskGroup) returns (g: Grouping)
    requires Splits(tg)
    ensures GroupingOf(tg.tasks) == Ok(g) && ValidGrouping(tg.tasks, g) && AllHalt(g) && Acyclic(AfterEdges(tg.tasks))
    ensures BuildPods(tg).value == PodsBelow(PodMap(tg.name, g), |g.members|)
    ensures Increasing(BuildPods(tg).value)
    ensures forall v :: v in BuildPods(tg).value <==> IsPodOf(PodMap(tg.name, g), v)
  {
    g := GroupingOf(tg.tasks).value;
    GroupingValid(tg.tasks);
    MembersHalt(tg.tasks, g);
    PodsBelowAre(PodMap(tg.name, g), |g.members|);
    forall v | IsPodOf(PodMap(tg.name, g), v) ensures v.index < |g.members| {
      var n :| n in g.podOf && g.podOf[n] == v.index;
    }
  }

  /** A pod has the tasks the grouping gives it, each once, and each after its After tasks. */
  lemma PodTasks(tg: TaskGroup, g: Grouping, v: PodValue)
    requires Splits(tg) && ValidGrouping(tg.tasks, g) && AllHalt(g) && Acyclic(AfterEdges(tg.tasks))
    requires IsPodOf(PodMap(tg.name, g), v)
    ensures DistinctNames(v.tasks) && AfterOrdered(v.tasks)
    ensures forall t :: t in v.tasks <==> t in tg.tasks && t.name in g.podOf && g.podOf[t.name] == v.index
  {
    var n :| n in g.podOf && g.podOf[n] == v.index;
    var list := g.members[v.index];
    MembersSort(tg.tasks, g, v.index);
    SortedTasksCorrect(list);
    SameBag(v.tasks, list);
  }

  lemma InPodOfName(tg: TaskGroup, g: Grouping, t: Task) returns (k: nat)
    requires Splits(tg) && t in tg.tasks && GroupingOf(tg.tasks) == Ok(g) && ValidGrouping(tg.tasks, g) && AllHalt(g)
    requires Acyclic(AfterEdges(tg.tasks))
    requires forall v :: v in BuildPods(tg).value <==> IsPodOf(PodMap(tg.name, g), v)
    ensures t.name in g.podOf && k < |BuildPods(tg).value| && BuildPods(tg).value[k].index == g.podOf[t.name]
    ensures t in BuildPods(tg).value[k].tasks
  {
    var i :| 0 <= i < |tg.tasks| && tg.tasks[i] == t;
    assert HasTask(tg.tasks, t.name) && t.name in NamesOf(tg.tasks);
    var v := PodMap(tg.name, g)[g.podOf[t.name]];
    assert v in BuildPods(tg).value;
    k :| 0 <= k < |BuildPods(tg).value| && BuildPods(tg).value[k] == v;
    PodTasks(tg, g, v);
  }

  /** Every task of the group is in exactly one pod, once, and pods have no other tasks. */
  lemma PodsPartitionTasks(tg: TaskGroup)
    requires Splits(tg)
    ensures var pods := BuildPods(tg).value;
            && (forall t :: t in tg.tasks <==> exists k :: 0 <= k < |pods| && t in pods[k].tasks)
            && (forall j, k, t :: 0 <= j < |pods| && 0 <= k < |pods| && t in pods[j].tasks && t in pods[k].tasks ==> j == k)
            && (forall k :: 0 <= k < |pods| ==> DistinctNames(pods[k].tasks))
  {
    var g := PodsComeFrom(tg);
    var pods := BuildPods(tg).value;
    forall k | 0 <= k < |pods|
      ensures DistinctNames(pods[k].tasks)
      ensures forall t :: t in pods[k].tasks ==> t in tg.tasks && t.name in g.podOf && g.podOf[t.name] == pods[k].index
    {
      assert pods[k] in pods;
      PodTasks(tg, g, pods[k]);
    }
    forall t | t in tg.tasks ensures exists k :: 0 <= k < |pods| && t in pods[k].tasks {
      var k := InPodOfName(tg, g, t);
    }
    forall j, k, t | 0 <= j < |pods| && 0 <= k < |pods| && t in pods[j].tasks && t in pods[k].tasks ensures j == k {
      assert pods[j].index == pods[k].index;
    }
  }

  /** Two tasks share a pod if and only if VolumesFrom and After links connect them. */
  lemma PodsAreComponents(tg: TaskGroup, s: Task, t: Task)
    requires Splits(tg) && s in tg.tasks && t in tg.tasks
    ensures (exists k :: 0 <= k < |BuildPods(tg).value| && s in BuildPods(tg).value[k].tasks && t in BuildPods(tg).value[k].tasks)
        <==> Reaches(Undirected(LinkEdges(tg.tasks)), s.name, t.name)
  {
    var g := PodsComeFrom(tg);
    var pods := BuildPods(tg).value;
    var j := InPodOfName(tg, g, s);
    var l := InPodOfName(tg, g, t);
    GroupsAreComponents(tg.tasks, s.name, t.name);
    if k :| 0 <= k < |pods| && s in pods[k].tasks && t in pods[k].tasks {
      assert pods[k] in pods;
      PodTasks(tg, g, pods[k]);
    }
    if g.podOf[s.name] == g.podOf[t.name] {
      assert pods[j].index == pods[l].index;
      assert j == l;
    }
  }

  /** Inside its pod, a task stands after all the tasks it names in After. */
  lemma PodsAreOrdered(tg: TaskGroup, k: nat)
    requires Splits(tg) && k < |BuildPods(tg).value|
    ensures var tasks := BuildPods(tg).value[k].tasks;
            forall i, n :: 0 <= i < |tasks| && n in tasks[i].after ==> 0 <= IndexByName(tasks, n) <= i
    ensures var tasks := BuildPods(tg).value[k].tasks;
            forall t, n :: t in tasks && n in t.volumesFrom ==> HasTask(tasks, n)
  {
    var g := PodsComeFrom(tg);
    var pod := BuildPods(tg).value[k];
    assert pod in BuildPods(tg).value;
    PodTasks(tg, g, pod);
    forall t, n | t in pod.tasks && (n in t.after || n in t.volumesFrom) ensures HasTask(pod.tasks, n) {
      LinkedTaskInPod(tg, g, pod, t, n);
    }
    forall i, n | 0 <= i < |pod.tasks| && n in pod.tasks[i].after ensures 0 <= IndexByName(pod.tasks, n) <= i {
      assert pod.tasks[i] in pod.tasks;
    }
  }

  lemma LinkedTaskInPod(tg: TaskGroup, g: Grouping, pod: PodValue, t: Task, n: string)
    requires DistinctNames(tg.tasks) && GroupingOf(tg.tasks) == Ok(g) && g.podOf.Keys == NamesOf(tg.tasks)
    requires forall x :: x in pod.tasks <==> x in tg.tasks && x.name in g.podOf && g.podOf[x.name] == pod.index
    requires t in pod.tasks && (n in t.after || n in t.volumesFrom)
    ensures HasTask(pod.tasks, n)
  {
    hide GroupingOf, DistinctNames;
    LinkedTasksShare(tg.tasks, t, n);
    assert HasTask(tg.tasks, n) by { assert n in NamesOf(tg.tasks); }
    var i :| 0 <= i < |tg.tasks| && tg.tasks[i].name == n;
    assert tg.tasks[i] in pod.tasks;
    var k :| 0 <= k < |pod.tasks| && pod.tasks[k] == tg.tasks[i];
  }

  /** A group that passes validation never fails for a missing task. */
  lemma ValidGroupsFindTheirTasks(tg: TaskGroup)
    requires tg.Valid() && CanFinish(tg) && BuildPods(tg).Err?
    ensures !BuildPods(tg).error.TaskNotFound?
  {
    GroupingFails(tg.tasks);
    if tg.restartAll {
      NoTaskNotFound([PodValue(0, ResourceName(tg.name), tg.tasks)]);
    } else {
      assert forall t :: t in tg.tasks ==> LinksExist(tg.tasks, t);
      var g := GroupingOf(tg.tasks).value;
      GroupingValid(tg.tasks);
      MembersHalt(tg.tasks, g);
      NoTaskNotFound(PodsBelow(PodMap(tg.name, g), |g.members|));
    }
  }

  lemma NoTaskNotFound(pods: seq<PodValue>)
    ensures FirstError(pods).Some? ==> !FirstError(pods).value.TaskNotFound?
  {
  }

  // ----- Restarting as one -----

  lemma NameOrderIsIndexOrder(tasks: seq<Task>, p: nat, n: string)
    requires SortedByName(tasks) && DistinctNames(tasks) && p < |tasks| && HasTask(tasks, n)
    ensures IndexByName(tasks, n) <= p <==> !NameLess(tasks[p].name, n)
  {
    var k := IndexByName(tasks, n);
    if k == p {
      NotLessThanItself(n);
    } else if k < p {
      assert NameLess(n, tasks[p].name);
      if NameLess(tasks[p].name, n) {
        NameLessTransitive(n, tasks[p].name, n);
        NotLessThanItself(n);
      }
    }
  }

  /**
  With restart policy "all" the tasks of the one pod stay as linking left them, in name order. They
  respect After if and only if no task names one whose name is greater than its own.
  */
  lemma RestartAllOrdersByName(tg: TaskGroup)
    requires SortedByName(tg.tasks) && DistinctNames(tg.tasks) && tg.restartAll && BuildPods(tg).Ok?
    requires forall t :: t in tg.tasks ==> LinksExist(tg.tasks, t)
    ensures |BuildPods(tg).value| == 1 && BuildPods(tg).value[0].tasks == tg.tasks
    ensures AfterOrdered(BuildPods(tg).value[0].tasks)
        <==> forall t, n :: t in tg.tasks && n in t.after ==> !NameLess(t.name, n)
  {
    var tasks := tg.tasks;
    forall p, n | 0 <= p < |tasks| && n in tasks[p].after
      ensures IndexByName(tasks, n) <= p <==> !NameLess(tasks[p].name, n)
    {
      assert tasks[p] in tasks && LinksExist(tasks, tasks[p]);
      NameOrderIsIndexOrder(tasks, p, n);
    }
    FirstErrorNone([PodValue(0, ResourceName(tg.name), tasks)]);
    assert BuildPods(tg).value == [PodValue(0, ResourceName(tg.name), tasks)];
    if AfterOrdered(tasks) {
      forall t, n | t in tasks && n in t.after ensures !NameLess(t.name, n) {
        var p :| 0 <= p < |tasks| && tasks[p] == t;
        assert n in tasks[p].after && IndexByName(tasks, n) <= p;
      }
    }
    assert forall p :: 0 <= p < |tasks| ==> tasks[p] in tasks;
  }

  function PlainTask(name: string, after: seq<string>): Task {
    Task(name, 0, Oneshot, "", after, [], [], [], "default", false, [])
  }

  lemma AaBeforeBb()
    ensures NameLess("aa", "bb") && "aa" != "bb"
  {
    assert "aa"[0] < "bb"[0];
  }

  /** Two valid tasks as linking leaves them, the first to run after the second, stay in that order. */
  lemma RestartAllIgnoresAfter()
    ensures var tg := TaskGroup("group", 1, false, true, [PlainTask("aa", ["bb"]), PlainTask("bb", [])]);
            tg.Valid() && SortedByName(tg.tasks) && BuildPods(tg).Ok? && !AfterOrdered(BuildPods(tg).value[0].tasks)
  {
    var a, b := PlainTask("aa", ["bb"]), PlainTask("bb", []);
    var tg := TaskGroup("group", 1, false, true, [a, b]);
    ValidPair(a, b);
    PairIsUnordered(a, b);
    hide SortedByName, AfterOrdered, TaskGroup.Valid;
    var pod := PodValue(0, ResourceName("group"), tg.tasks);
    assert |pod.name| == 5;
    assert Validate(pod.name, pod.tasks) == None;
    FirstErrorNone([pod]);
  }

  lemma ValidPair(a: Task, b: Task)
    requires a == PlainTask("aa", ["bb"]) && b == PlainTask("bb", [])
    ensures TaskGroup("group", 1, false, true, [a, b]).Valid() && SortedByName([a, b]) && DistinctNames([a, b])
  {
    var tasks := [a, b];
    AaBeforeBb();
    hide NameLess;
    assert HasTask(tasks, tasks[1].name);
    assert LinksExist(tasks, a) && LinksExist(tasks, b);
  }

  lemma PairIsUnordered(a: Task, b: Task)
    requires a == PlainTask("aa", ["bb"]) && b == PlainTask("bb", []) && DistinctNames([a, b])
    ensures !AfterOrdered([a, b])
  {
    IndexIsUnique([a, b], 1);
    assert "bb" in [a, b][0].after && IndexByName([a, b], "bb") == 1;
  }

  lemma TwoCycle(tasks: seq<Task>, a: Task, b: Task)
    requires a in tasks && b in tasks && a.name != b.name && a.name in b.after && b.name in a.after
    ensures !Acyclic(AfterEdges(tasks))
  {
    var i :| 0 <= i < |tasks| && tasks[i] == a;
    var j :| 0 <= j < |tasks| && tasks[j] == b;
    assert HasTask(tasks, tasks[i].name) && HasTask(tasks, tasks[j].name);
    assert (a.name, b.name) in AfterEdges(tasks) && (b.name, a.name) in AfterEdges(tasks);
    assert IsCycle(AfterEdges(tasks), [a.name, b.name, a.name]);
  }

  /** Two tasks that each come after the other keep a pod from ever being sorted. */
  lemma NeverSorted(tasks: seq<Task>, a: Task, b: Task)
    requires DistinctNames(tasks) && a in tasks && b in tasks && a.name != b.name && a.name in b.after && b.name in a.after
    ensures !Halts(SortByName(tasks))
  {
    hide Halts, Acyclic, SortedByName, AfterEdges;
    var sorted := SortByName(tasks);
    SortByNameSorts(tasks);
    SortedIsDistinct(sorted);
    SameBag(sorted, tasks);
    TwoCycle(sorted, a, b);
    HaltsIffAcyclic(sorted);
  }

  lemma ValidCycle(a: Task, b: Task)
    requires a == PlainTask("aa", ["bb"]) && b == PlainTask("bb", ["aa"])
    ensures TaskGroup("group", 1, false, false, [a, b]).Valid() && SortedByName([a, b])
  {
    var tasks := [a, b];
    AaBeforeBb();
    hide NameLess;
    assert HasTask(tasks, tasks[0].name) && HasTask(tasks, tasks[1].name);
    assert LinksExist(tasks, a) && LinksExist(tasks, b);
  }

  /** A valid group whose two tasks each come after the other: they share a pod, and sorting its tasks never ends. */
  lemma ValidGroupNeverSorted()
    ensures var a, b := PlainTask("aa", ["bb"]), PlainTask("bb", ["aa"]);
            && TaskGroup("group", 1, false, false, [a, b]).Valid() && SortedByName([a, b])
            && Reaches(Undirected(LinkEdges([a, b])), "aa", "bb") && !Halts(SortByName([a, b]))
  {
    var a, b := PlainTask("aa", ["bb"]), PlainTask("bb", ["aa"]);
    hide Halts, SortByName, SortedByName, LinksExist;
    ValidCycle(a, b);
    AaBeforeBb();
    assert [a, b][0] == a && [a, b][1] == b;
    NeverSorted([a, b], a, b);
    assert Links([a, b]) == LinksOf(a) + Links([b]) && [a, b][1..] == [b];
    assert LinksOf(a)[0] == ("aa", "bb");
    assert ("aa", "bb") in LinkEdges([a, b]);
    EdgeReaches(Undirected(LinkEdges([a, b])), "aa", "bb");
  }

  // ----- Names -----

  /** Every task has its own place in the job file. */
  ghost predicate OwnPlaces(tasks: seq<Task>) {
    && (forall i :: 0 <= i < |tasks| ==> tasks[i].originalIndex >= 0)
    && (forall i, j :: 0 <= i < j < |tasks| ==> tasks[i].originalIndex != tasks[j].originalIndex)
  }

  lemma ResourceNameSuffix(group: string, a: string, b: string)
    requires ValidTaskName(a) && ValidTaskName(b)
    requires ResourceName(group + "-" + a) == ResourceName(group + "-" + b)
    ensures a == b
  {
    var s, t := group + "-" + a, group + "-" + b;
    assert |ResourceName(s)| == |s| && |ResourceName(t)| == |t|;
    forall i | 0 <= i < |a| ensures a[i] == b[i] {
      var k := |group| + 1 + i;
      assert s[k] == a[i] && t[k] == b[i];
      assert ResourceName(s)[k] == ResourceName(t)[k];
      assert IsNameChar(a[i]) && IsNameChar(b[i]);
    }
  }

  /** The pods of one group have different names: each is named after its own first task. */
  lemma PodNamesDistinct(tg: TaskGroup, j: nat, k: nat)
    requires Splits(tg) && tg.Valid() && OwnPlaces(tg.tasks)
    requires j < k < |BuildPods(tg).value|
    ensures BuildPods(tg).value[j].name != BuildPods(tg).value[k].name
  {
    var g := PodsComeFrom(tg);
    var p, q := BuildPods(tg).value[j], BuildPods(tg).value[k];
    assert p in BuildPods(tg).value && q in BuildPods(tg).value;
    var a := NamedAfter(tg, g, p);
    var b := NamedAfter(tg, g, q);
    assert a != b;
    if p.name == q.name {
      ResourceNameSuffix(tg.name, a, b);
    }
  }

  lemma NamedAfter(tg: TaskGroup, g: Grouping, v: PodValue) returns (name: string)
    requires Splits(tg) && tg.Valid() && OwnPlaces(tg.tasks) && ValidGrouping(tg.tasks, g) && AllHalt(g)
    requires IsPodOf(PodMap(tg.name, g), v)
    ensures v.name == ResourceName(tg.name + "-" + name) && ValidTaskName(name)
    ensures name in g.podOf && g.podOf[name] == v.index
  {
    hide Splits, SortedTasks, Halts;
    var n :| n in g.podOf && g.podOf[n] == v.index;
    var list := g.members[v.index];
    FirstTaskNames(tg, g, v.index, n);
    name := list[FirstTask(list)].name;
  }

  /** The pod has a first task, which gives it its name. */
  lemma FirstTaskNames(tg: TaskGroup, g: Grouping, p: nat, n: string)
    requires tg.Valid() && OwnPlaces(tg.tasks) && ValidGrouping(tg.tasks, g) && n in g.podOf && g.podOf[n] == p
    ensures p < |g.members| && FirstTask(g.members[p]) >= 0
    ensures var name := g.members[p][FirstTask(g.members[p])].name;
            ValidTaskName(name) && name in g.podOf && g.podOf[name] == p
  {
    hide FirstTask;
    var list := g.members[p];
    assert Lists(tg.tasks, g, p);
    NameInPod(tg.tasks, g, p, n);
    var i :| 0 <= i < |list| && list[i].name == n;
    forall x | x in list ensures x.originalIndex >= 0 && ValidTaskName(x.name) {
      var m :| 0 <= m < |tg.tasks| && tg.tasks[m] == x;
    }
    assert list[i] in list;
    assert list[FirstTask(list)] in list;
  }
}
