/**
groupTaskIntoPods as a whole: the result as a function of the task group, the code over shared
pod objects that computes it in whatever order maps are walked, and what the result means.
*/
module PodBuild {
  import opened Wrappers
  import opened Graph
  import opened Jobs
  import opened PodSort
  import opened Pods

  // ----- The result -----

  ghost predicate AllHalt(g: Grouping) {
    InRange(g) && forall n :: n in g.podOf ==> Halts(SortByName(g.members[g.podOf[n]]))
  }

  /** The pods in use, by index. */
  ghost function PodMap(group: string, g: Grouping): map<nat, PodValue>
    requires AllHalt(g)
  {
    map i | i in g.podOf.Values :: PodValue(i, PodName(group, g.members[i]), SortedTasks(g.members[i]))
  }

  /** The pods with an index below k, in the order of their index. */
  ghost function PodsBelow(pods: map<nat, PodValue>, k: nat): seq<PodValue> {
    if k == 0 then []
    else PodsBelow(pods, k - 1) + if k - 1 in pods then [pods[k - 1]] else []
  }

  ghost predicate IsPodOf(pods: map<nat, PodValue>, v: PodValue) {
    v.index in pods && v == pods[v.index]
  }

  function FirstError(pods: seq<PodValue>): Option<PodError> {
    if pods == [] then None
    else if Validate(pods[0].name, pods[0].tasks).Some? then Validate(pods[0].name, pods[0].tasks)
    else FirstError(pods[1..])
  }

  function Checked(pods: seq<PodValue>): Result<seq<PodValue>, PodError> {
    if FirstError(pods).Some? then Err(FirstError(pods).value) else Ok(pods)
  }

  /** All pods can be sorted: the group restarts as one, a link is broken, or After has no cycle. */
  ghost predicate CanFinish(tg: TaskGroup)
    requires DistinctNames(tg.tasks)
  {
    tg.restartAll || GroupingOf(tg.tasks).Err? || Acyclic(AfterEdges(tg.tasks))
  }

  lemma MembersHalt(tasks: seq<Task>, g: Grouping)
    requires ValidGrouping(tasks, g) && Acyclic(AfterEdges(tasks))
    ensures AllHalt(g)
  {
    forall n | n in g.podOf ensures Halts(SortByName(g.members[g.podOf[n]])) {
      MembersSort(tasks, g, g.podOf[n]);
    }
  }

  lemma MembersSort(tasks: seq<Task>, g: Grouping, p: nat)
    requires p < |g.members| && g.podOf.Keys == NamesOf(tasks) && Lists(tasks, g, p)
    requires Acyclic(AfterEdges(tasks))
    ensures DistinctNames(g.members[p]) && Acyclic(AfterEdges(g.members[p])) && Halts(SortByName(g.members[p]))
  {
    var list := g.members[p];
    forall n | HasTask(list, n) ensures HasTask(tasks, n) {
      NameInPod(tasks, g, p, n);
    }
    assert AfterEdges(list) <= AfterEdges(tasks);
    AcyclicMonotone(AfterEdges(list), AfterEdges(tasks));
    SortHalts(list);
  }

  /** The pods of a task group. */
  ghost function BuildPods(tg: TaskGroup): Result<seq<PodValue>, PodError>
    requires DistinctNames(tg.tasks) && CanFinish(tg)
  {
    if tg.restartAll then Checked([PodValue(0, ResourceName(tg.name), tg.tasks)])
    else
      match GroupingOf(tg.tasks)
      case Err(e) => Err(e)
      case Ok(g) =>
        GroupingValid(tg.tasks);
        MembersHalt(tg.tasks, g);
        Checked(PodsBelow(PodMap(tg.name, g), |g.members|))
  }

  // ----- The code -----

  /** The map and the pod objects hold what the grouping says. */
  ghost predicate Represents(m: map<string, Pod>, objs: seq<Pod>, g: Grouping)
    reads objs
  {
    && |objs| == |g.members|
    && (forall i :: 0 <= i < |objs| ==> objs[i].index == i && objs[i].tasks == g.members[i])
    && m.Keys == g.podOf.Keys
    && (forall n :: n in g.podOf ==> g.podOf[n] < |objs| && m[n] == objs[g.podOf[n]])
  }

  lemma NamesGrow(tasks: seq<Task>, i: nat)
    requires i < |tasks|
    ensures NamesOf(tasks[..i + 1]) == NamesOf(tasks[..i]) + {tasks[i].name}
  {
    var list := tasks[..i + 1];
    forall n ensures HasTask(list, n) <==> HasTask(tasks[..i], n) || n == tasks[i].name {
      if k :| 0 <= k < |list| && list[k].name == n {
        if k < i { assert tasks[..i][k].name == n; }
      }
      if k :| 0 <= k < i && tasks[..i][k].name == n { assert list[k].name == n; }
      assert list[i].name == tasks[i].name;
    }
  }

  method CreatePods(tasks: seq<Task>) returns (m: map<string, Pod>, ghost objs: seq<Pod>)
    requires DistinctNames(tasks)
    ensures fresh(objs) && Represents(m, objs, Singles(tasks))
    ensures forall i :: 0 <= i < |objs| ==> objs[i].name == ""
  {
    hide HasTask;
    m, objs := map[], [];
    for i := 0 to |tasks|
      invariant |objs| == i && fresh(objs)
      invariant forall k :: 0 <= k < i ==> objs[k].index == k && objs[k].tasks == [tasks[k]] && objs[k].name == ""
      invariant m.Keys == NamesOf(tasks[..i])
      invariant forall k :: 0 <= k < i ==> tasks[k].name in m && m[tasks[k].name] == objs[k]
    {
      var p := new Pod(i, tasks[i]);
      NamesGrow(tasks, i);
      m := m[tasks[i].name := p];
      objs := objs + [p];
    }
    assert tasks[..|tasks|] == tasks;
    SinglesRepresented(tasks, m, objs);
  }

  lemma SinglesRepresented(tasks: seq<Task>, m: map<string, Pod>, objs: seq<Pod>)
    requires |objs| == |tasks| && m.Keys == NamesOf(tasks)
    requires forall k :: 0 <= k < |tasks| ==> objs[k].index == k && objs[k].tasks == [tasks[k]]
    requires forall k :: 0 <= k < |tasks| ==> tasks[k].name in m && m[tasks[k].name] == objs[k]
    ensures Represents(m, objs, Singles(tasks))
  {
    forall n | HasTask(tasks, n) ensures m[n] == objs[IndexByName(tasks, n)] {
      assert tasks[IndexByName(tasks, n)].name == n;
    }
  }

  /** Lets all tasks of a list be found in one pod. */
  method Rename(m: map<string, Pod>, list: seq<Task>, p: Pod) returns (after: map<string, Pod>)
    requires forall i :: 0 <= i < |list| ==> list[i].name in m
    ensures after.Keys == m.Keys
    ensures forall n :: n in m ==> after[n] == if n in NamesOf(list) then p else m[n]
  {
    after := m;
    for i := 0 to |list|
      invariant after.Keys == m.Keys
      invariant forall n :: n in m ==> after[n] == if n in NamesOf(list[..i]) then p else m[n]
    {
      NamesGrow(list, i);
      after := after[list[i].name := p];
    }
    assert list[..|list|] == list;
  }

  /** The closure `group` of the source: both tasks end up in the pod of the first. */
  method Group(m: map<string, Pod>, ghost objs: seq<Pod>, ghost g: Grouping, n1: string, n2: string)
    returns (r: Result<map<string, Pod>, PodError>)
    requires InRange(g) && Represents(m, objs, g)
    requires n2 in g.podOf ==> forall t :: t in g.members[g.podOf[n2]] ==> t.name in g.podOf
    modifies objs`tasks
    ensures Computes(r, objs, Merge(g, (n1, n2)))
  {
    if n1 !in m { return Err(TaskNotFound(n1)); }
    var p1 := m[n1];
    if n2 !in m { return Err(TaskNotFound(n2)); }
    var p2 := m[n2];
    assert p1.index == g.podOf[n1] && p2.index == g.podOf[n2];
    if p1 == p2 { return Ok(m); }
    var after := MovePods(m, objs, g, n1, n2);
    return Ok(after);
  }

  /** Adds the tasks of the second pod to the first. */
  method MovePods(m: map<string, Pod>, ghost objs: seq<Pod>, ghost g: Grouping, n1: string, n2: string)
    returns (after: map<string, Pod>)
    requires InRange(g) && Represents(m, objs, g) && n1 in g.podOf && n2 in g.podOf && g.podOf[n1] != g.podOf[n2]
    requires forall t :: t in g.members[g.podOf[n2]] ==> t.name in g.podOf
    modifies objs`tasks
    ensures Merge(g, (n1, n2)).Ok? && Represents(after, objs, Merge(g, (n1, n2)).value)
  {
    hide Merge, HasTask;
    var p1, p2 := m[n1], m[n2];
    forall i | 0 <= i < |p2.tasks| ensures p2.tasks[i].name in m {
      assert p2.tasks[i] in g.members[g.podOf[n2]];
    }
    p1.tasks := p1.tasks + p2.tasks;
    after := Rename(m, p2.tasks, p1);
    MergeParts(g, n1, n2);
    MergedMap(m, objs, g, n1, n2, after);
    Regrouped(after, objs, g, Merge(g, (n1, n2)).value, g.podOf[n1], g.podOf[n2]);
  }

  /** The pod objects once the tasks of pod q have been added to pod p. */
  lemma Regrouped(m: map<string, Pod>, objs: seq<Pod>, g: Grouping, r: Grouping, p: nat, q: nat)
    requires p < |objs| && q < |objs| && |objs| == |g.members| && r.members == g.members[p := g.members[p] + g.members[q]]
    requires forall i :: 0 <= i < |objs| ==> objs[i].index == i
    requires forall i :: 0 <= i < |objs| ==> objs[i].tasks == if i == p then g.members[p] + g.members[q] else g.members[i]
    requires m.Keys == r.podOf.Keys && forall n :: n in r.podOf ==> r.podOf[n] < |objs| && m[n] == objs[r.podOf[n]]
    ensures Represents(m, objs, r)
  {
  }

  lemma MergedMap(m: map<string, Pod>, objs: seq<Pod>, g: Grouping, n1: string, n2: string, after: map<string, Pod>)
    requires InRange(g) && n1 in g.podOf && n2 in g.podOf && g.podOf[n1] != g.podOf[n2]
    requires forall t :: t in g.members[g.podOf[n2]] ==> t.name in g.podOf
    requires |objs| == |g.members| && m.Keys == g.podOf.Keys
    requires forall n :: n in g.podOf ==> m[n] == objs[g.podOf[n]]
    requires after.Keys == m.Keys
    requires forall n :: n in m ==> after[n] == if n in NamesOf(g.members[g.podOf[n2]]) then m[n1] else m[n]
    ensures var r := Merge(g, (n1, n2)).value;
            after.Keys == r.podOf.Keys && forall n :: n in r.podOf ==> after[n] == objs[r.podOf[n]]
  {
    MergeParts(g, n1, n2);
    hide Merge, NamesOf;
    var r, p, q := Merge(g, (n1, n2)).value, g.podOf[n1], g.podOf[n2];
    forall n | n in r.podOf ensures after[n] == objs[r.podOf[n]] {
      assert n in g.podOf && n in m;
      assert after[n] == if n in NamesOf(g.members[q]) then objs[p] else objs[g.podOf[n]];
    }
  }

  lemma MergeParts(g: Grouping, n1: string, n2: string)
    requires InRange(g) && n1 in g.podOf && n2 in g.podOf && g.podOf[n1] != g.podOf[n2]
    requires forall t :: t in g.members[g.podOf[n2]] ==> t.name in g.podOf
    ensures var p, q := g.podOf[n1], g.podOf[n2];
            && Merge(g, (n1, n2)).Ok? && InRange(Merge(g, (n1, n2)).value)
            && var r := Merge(g, (n1, n2)).value;
               && r.members == g.members[p := g.members[p] + g.members[q]]
               && r.podOf.Keys == g.podOf.Keys
               && forall n :: n in g.podOf ==> r.podOf[n] == if n in NamesOf(g.members[q]) then p else g.podOf[n]
  {
    hide HasTask;
    NamesKnown(g.members[g.podOf[n2]], g.podOf.Keys);
  }

  lemma NamesKnown(list: seq<Task>, known: set<string>)
    requires forall t :: t in list ==> t.name in known
    ensures NamesOf(list) <= known
  {
    forall n | n in NamesOf(list) ensures n in known {
      var i :| 0 <= i < |list| && list[i].name == n;
      assert list[i] in list;
    }
  }

  /** The code fails when the grouping does, and otherwise represents it. */
  ghost predicate Computes(r: Result<map<string, Pod>, PodError>, objs: seq<Pod>, g: Result<Grouping, PodError>)
    reads objs
  {
    match g
    case Err(e) => r == Err(e)
    case Ok(after) => r.Ok? && Represents(r.value, objs, after)
  }

  /** Groups one task with each of a list of others. */
  method GroupWith(tasks: seq<Task>, m0: map<string, Pod>, ghost objs: seq<Pod>, ghost g0: Grouping, name: string, others: seq<string>)
    returns (r: Result<map<string, Pod>, PodError>)
    requires DistinctNames(tasks) && ValidGrouping(tasks, g0) && Represents(m0, objs, g0)
    modifies objs`tasks
    ensures Computes(r, objs, MergeFrom(g0, LinksTo(name, others)))
  {
    var m := m0;
    ghost var g, links := g0, LinksTo(name, others);
    for j := 0 to |others|
      invariant ValidGrouping(tasks, g) && Represents(m, objs, g)
      invariant MergeFrom(g0, links) == MergeFrom(g, links[j..])
    {
      assert links[j..][0] == (name, others[j]) && links[j..][1..] == links[j + 1..];
      if others[j] in g.podOf { assert Lists(tasks, g, g.podOf[others[j]]); }
      var after := Group(m, objs, g, name, others[j]);
      if after.Err? { return after; }
      MergeValid(tasks, g, (name, others[j]));
      m, g := after.value, Merge(g, (name, others[j])).value;
    }
    return Ok(m);
  }

  method GroupAll(tasks: seq<Task>, m0: map<string, Pod>, ghost objs: seq<Pod>) returns (r: Result<map<string, Pod>, PodError>)
    requires DistinctNames(tasks) && Represents(m0, objs, Singles(tasks))
    modifies objs`tasks
    ensures Computes(r, objs, GroupingOf(tasks))
  {
    var m := m0;
    ghost var g := Singles(tasks);
    SinglesValid(tasks);
    assert tasks[0..] == tasks;
    for i := 0 to |tasks|
      invariant ValidGrouping(tasks, g) && Represents(m, objs, g)
      invariant GroupingOf(tasks) == MergeFrom(g, Links(tasks[i..]))
    {
      assert tasks[i..][0] == tasks[i] && tasks[i..][1..] == tasks[i + 1..];
      MergeFromAppend(g, LinksOf(tasks[i]), Links(tasks[i + 1..]));
      MergeFromValid(tasks, g, LinksOf(tasks[i]));
      var grouped := GroupTask(tasks, m, objs, g, tasks[i]);
      if grouped.Err? { return grouped; }
      m, g := grouped.value, MergeFrom(g, LinksOf(tasks[i])).value;
    }
    return Ok(m);
  }

  /** Groups a task with the tasks of its VolumesFrom, and then with those of its After. */
  method GroupTask(tasks: seq<Task>, m: map<string, Pod>, ghost objs: seq<Pod>, ghost g: Grouping, t: Task)
    returns (r: Result<map<string, Pod>, PodError>)
    requires DistinctNames(tasks) && ValidGrouping(tasks, g) && Represents(m, objs, g)
    modifies objs`tasks
    ensures Computes(r, objs, MergeFrom(g, LinksOf(t)))
  {
    ghost var volumes := LinksTo(t.name, t.volumesFrom);
    MergeFromAppend(g, volumes, LinksTo(t.name, t.after));
    MergeFromValid(tasks, g, volumes);
    r := GroupWith(tasks, m, objs, g, t.name, t.volumesFrom);
    if r.Ok? {
      r := GroupWith(tasks, r.value, objs, MergeFrom(g, volumes).value, t.name, t.after);
    }
  }

  /** Names all pods, walking the map in any order. */
  method NamePods(group: string, m: map<string, Pod>, ghost objs: seq<Pod>, ghost g: Grouping)
    requires Represents(m, objs, g) && forall i :: 0 <= i < |objs| ==> objs[i].name == ""
    modifies objs`name
    ensures Represents(m, objs, g)
    ensures forall n :: n in m ==> m[n].name == PodName(group, g.members[g.podOf[n]])
  {
    hide PodName;
    var rest := m.Keys;
    while rest != {}
      invariant rest <= m.Keys
      invariant forall i :: 0 <= i < |objs| ==> objs[i].name == "" || objs[i].name == PodName(group, objs[i].tasks)
      invariant forall n :: n in m && n !in rest ==> m[n].name == PodName(group, m[n].tasks)
      decreases rest
    {
      var n :| n in rest;
      var p := m[n];
      assert p == objs[g.podOf[n]];
      if p.name == "" {
        p.name := CreatePodName(group, p.tasks);
      }
      rest := rest - {n};
    }
  }

  /** Sorting the pod's tasks makes it the expected value. */
  ghost predicate Becomes(p: Pod, v: PodValue)
    reads p
  {
    && DistinctNames(p.tasks) && Acyclic(AfterEdges(p.tasks))
    && v.index == p.index && v.name == p.name
    && (Halts(SortByName(p.tasks)) ==> v.tasks == SortedTasks(p.tasks))
  }

  method SortedPod(p: Pod, ghost expected: PodValue) returns (v: PodValue)
    requires Becomes(p, expected)
    modifies p`tasks
    ensures v == expected && v.index == p.index
  {
    p.SortTasks();
    v := PodValue(p.index, p.name, p.tasks);
  }

  /** Sorts the tasks of all pods and lists the pods, walking the map in any order. */
  method CollectPods(m: map<string, Pod>, ghost objs: seq<Pod>, ghost pods: map<nat, PodValue>) returns (result: seq<PodValue>)
    requires forall i, j :: 0 <= i < j < |objs| ==> objs[i] != objs[j]
    requires forall i :: i in pods ==> i < |objs| && objs[i].index == i && Becomes(objs[i], pods[i])
    requires forall n :: n in m ==> m[n].index in pods && m[n] == objs[m[n].index]
    requires forall i :: i in pods ==> exists n :: n in m && m[n].index == i
    modifies objs`tasks
    ensures forall v :: v in result <==> IsPodOf(pods, v)
    ensures forall i, j :: 0 <= i < j < |result| ==> result[i].index != result[j].index
  {
    hide Collected, Becomes;
    var rest := m.Keys;
    var seen: set<nat> := {};
    result := [];
    NoneCollected(pods);
    while rest != {}
      invariant rest <= m.Keys && seen <= pods.Keys
      invariant forall i :: i in pods && i !in seen ==> Becomes(objs[i], pods[i])
      invariant forall n :: n in m && n !in rest ==> m[n].index in seen
      invariant Collected(pods, seen, result)
      decreases rest
    {
      var n :| n in rest;
      var p := m[n];
      if p.index !in seen {
        var v := SortedPod(p, pods[p.index]);
        CollectedMore(pods, seen, result, v);
        result := result + [v];
        seen := seen + {p.index};
      }
      rest := rest - {n};
    }
    forall i | i in pods ensures i in seen {
      var n :| n in m && m[n].index == i;
    }
    AllCollected(pods, seen, result);
  }

  lemma NoneCollected(pods: map<nat, PodValue>)
    ensures Collected(pods, {}, [])
  {
  }

  lemma AllCollected(pods: map<nat, PodValue>, seen: set<nat>, result: seq<PodValue>)
    requires Collected(pods, seen, result) && forall i :: i in pods ==> i in seen
    ensures forall v :: v in result <==> IsPodOf(pods, v)
    ensures forall i, j :: 0 <= i < j < |result| ==> result[i].index != result[j].index
  {
  }

  /** The list has the pods with these indices, each once. */
  ghost predicate Collected(pods: map<nat, PodValue>, seen: set<nat>, result: seq<PodValue>) {
    && (forall v :: v in result <==> v.index in seen && IsPodOf(pods, v))
    && (forall i, j :: 0 <= i < j < |result| ==> result[i].index != result[j].index)
  }

  lemma CollectedMore(pods: map<nat, PodValue>, seen: set<nat>, result: seq<PodValue>, v: PodValue)
    requires Collected(pods, seen, result) && v.index !in seen && IsPodOf(pods, v)
    ensures Collected(pods, seen + {v.index}, result + [v])
  {
    forall k | 0 <= k < |result| ensures result[k].index != v.index {
      assert result[k] in result;
    }
  }

  // ----- Sorting pods by index -----

  ghost predicate Increasing(pods: seq<PodValue>) {
    forall i, j :: 0 <= i < j < |pods| ==> pods[i].index < pods[j].index
  }

  function InsertPod(p: PodValue, pods: seq<PodValue>): (r: seq<PodValue>)
    ensures forall v :: v in r <==> v == p || v in pods
  {
    if pods == [] || p.index < pods[0].index then [p] + pods
    else
      assert pods == [pods[0]] + pods[1..];
      [pods[0]] + InsertPod(p, pods[1..])
  }

  /** The library sort of the list of pods. */
  function SortPods(pods: seq<PodValue>): (r: seq<PodValue>)
    ensures forall v :: v in r <==> v in pods
  {
    if pods == [] then []
    else
      assert pods == [pods[0]] + pods[1..];
      InsertPod(pods[0], SortPods(pods[1..]))
  }

  lemma {:induction false} InsertPodIncreasing(p: PodValue, pods: seq<PodValue>)
    requires Increasing(pods) && forall v :: v in pods ==> v.index != p.index
    ensures Increasing(InsertPod(p, pods))
  {
    if pods != [] && p.index >= pods[0].index {
      assert pods[0] in pods;
      InsertPodIncreasing(p, pods[1..]);
      var rest := InsertPod(p, pods[1..]);
      forall j | 0 <= j < |rest| ensures pods[0].index < rest[j].index {
        assert rest[j] in rest;
      }
    }
  }

  lemma {:induction false} SortPodsIncreasing(pods: seq<PodValue>)
    requires forall i, j :: 0 <= i < j < |pods| ==> pods[i].index != pods[j].index
    ensures Increasing(SortPods(pods))
  {
    if pods != [] {
      SortPodsIncreasing(pods[1..]);
      forall v | v in SortPods(pods[1..]) ensures v.index != pods[0].index {
        var i :| 0 <= i < |pods[1..]| && pods[1..][i] == v;
        assert pods[i + 1] == v;
      }
      InsertPodIncreasing(pods[0], SortPods(pods[1..]));
    }
  }

  /** A list in increasing order is determined by what is in it. */
  lemma {:induction false} IncreasingUnique(a: seq<PodValue>, b: seq<PodValue>)
    requires Increasing(a) && Increasing(b) && forall v :: v in a <==> v in b
    ensures a == b
  {
    hide Increasing;
    assert a != [] ==> a[0] in a;
    assert b != [] ==> b[0] in b;
    if a != [] && b != [] {
      var a', b' := a[..|a| - 1], b[..|b| - 1];
      BeforeLast(a);
      BeforeLast(b);
      assert a[|a| - 1] in b && b[|b| - 1] in a;
      IncreasingUnique(a', b');
      assert a == a' + [a[|a| - 1]] && b == b' + [b[|b| - 1]];
    }
  }

  lemma BeforeLast(pods: seq<PodValue>)
    requires Increasing(pods) && pods != []
    ensures var init, last := pods[..|pods| - 1], pods[|pods| - 1];
            Increasing(init) && forall v :: v in init <==> v in pods && v.index < last.index
    ensures forall v :: v in pods ==> v == pods[|pods| - 1] || v.index < pods[|pods| - 1].index
  {
  }

  lemma {:induction false} PodsBelowAre(pods: map<nat, PodValue>, k: nat)
    requires forall i :: i in pods ==> pods[i].index == i
    ensures Increasing(PodsBelow(pods, k))
    ensures forall v :: v in PodsBelow(pods, k) <==> v.index < k && IsPodOf(pods, v)
  {
    if k > 0 {
      PodsBelowAre(pods, k - 1);
      var init := PodsBelow(pods, k - 1);
      forall i | 0 <= i < |init| ensures init[i].index < k - 1 {
        assert init[i] in init;
      }
    }
  }

  method CheckPods(pods: seq<PodValue>) returns (r: Result<seq<PodValue>, PodError>)
    ensures r == Checked(pods)
  {
    for i := 0 to |pods|
      invariant FirstError(pods) == FirstError(pods[i..])
    {
      assert pods[i..][0] == pods[i] && pods[i..][1..] == pods[i + 1..];
      var error := ValidatePod(pods[i].name, pods[i].tasks);
      if error.Some? { return Err(error.value); }
    }
    return Ok(pods);
  }

  /**
  The code computes the result, in whatever order the maps are walked: the outcome does not depend
  on that order.
  */
  method GroupTaskIntoPods(tg: TaskGroup) returns (r: Result<seq<PodValue>, PodError>)
    requires DistinctNames(tg.tasks) && CanFinish(tg)
    ensures r == BuildPods(tg)
  {
    if tg.restartAll {
      r := CheckPods([PodValue(0, ResourceName(tg.name), tg.tasks)]);
      return;
    }
    ghost var objs;
    var m;
    m, objs := CreatePods(tg.tasks);
    var grouped := GroupAll(tg.tasks, m, objs);
    if grouped.Err? { return Err(grouped.error); }
    m := grouped.value;
    ghost var g := GroupingOf(tg.tasks).value;
    GroupingValid(tg.tasks);
    MembersHalt(tg.tasks, g);
    NamePods(tg.name, m, objs, g);
    ghost var pods := PodMap(tg.name, g);
    PodMapReady(tg, g, m, objs);
    var result := CollectPods(m, objs, pods);
    PodsBelowAre(pods, |g.members|);
    SortPodsIncreasing(result);
    IncreasingUnique(SortPods(result), PodsBelow(pods, |g.members|));
    r := CheckPods(SortPods(result));
  }

  lemma PodMapReady(tg: TaskGroup, g: Grouping, m: map<string, Pod>, objs: seq<Pod>)
    requires ValidGrouping(tg.tasks, g) && AllHalt(g) && Acyclic(AfterEdges(tg.tasks)) && Represents(m, objs, g)
    requires forall n :: n in m ==> m[n].name == PodName(tg.name, g.members[g.podOf[n]])
    ensures var pods := PodMap(tg.name, g);
            && (forall i :: i in pods ==> i < |objs| && objs[i].index == i && Becomes(objs[i], pods[i]))
            && (forall n :: n in m ==> m[n].index in pods && m[n] == objs[m[n].index])
            && (forall i :: i in pods ==> exists n :: n in m && m[n].index == i)
    ensures forall i, j :: 0 <= i < j < |objs| ==> objs[i] != objs[j]
  {
    hide Acyclic, AfterEdges, Halts, SortedTasks, DistinctNames, PodName, HasTask;
    forall n | n in m ensures m[n].index in g.podOf.Values && m[n] == objs[m[n].index] {
      assert m[n] == objs[g.podOf[n]];
    }
    forall i | i in g.podOf.Values
      ensures i < |g.members| && DistinctNames(g.members[i]) && Acyclic(AfterEdges(g.members[i]))
      ensures objs[i].name == PodName(tg.name, g.members[i])
    {
      var n :| n in g.podOf && g.podOf[n] == i;
      MembersSort(tg.tasks, g, i);
      assert n in m && m[n] == objs[i];
    }
    forall i | i in g.podOf.Values ensures exists n :: n in m && m[n].index == i {
      var n :| n in g.podOf && g.podOf[n] == i;
      assert n in m && m[n] == objs[i];
    }
  }
}
