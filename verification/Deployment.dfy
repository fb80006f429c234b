/**
Deploying a job on fleet: which units the fleet renderer generates for a selection of task groups
and scaling groups, and what Run and Destroy leave on the cluster.
*/
module Deployment {
  import opened Wrappers
  import opened UnitFiles
  import opened UnitNames
  import opened Jobs
  import opened Scheduler
  import opened Reconcile

  // ----- What the renderer generates -----

  /** A proxy unit for each tcp link, numbered from `index`. */
  function ProxyKinds(tcpLinks: seq<bool>, index: nat): seq<UnitKind> {
    if tcpLinks == [] then []
    else if tcpLinks[0] then [UnitKind.Proxy(index)] + ProxyKinds(tcpLinks[1..], index + 1)
    else ProxyKinds(tcpLinks[1..], index)
  }

  /** A volume unit for each volume that is not local, numbered by its place in the list. */
  function VolumeKinds(volumes: seq<Jobs.Volume>, index: nat): seq<UnitKind> {
    if volumes == [] then []
    else (if volumes[0].IsLocal() then [] else [UnitKind.Volume(index)]) + VolumeKinds(volumes[1..], index + 1)
  }

  /** The units of the main chain of a task: sidekicks first, the main unit last. */
  function MainChainKinds(t: Task): seq<UnitKind> {
    ProxyKinds(t.tcpLinks, 0) + VolumeKinds(t.volumes, 0) + [UnitKind.Main]
  }

  function TaskKinds(t: Task): seq<UnitKind> {
    MainChainKinds(t) + if t.timer != "" then [UnitKind.Timer] else []
  }

  /** Which units a task has: one for each tcp link, one for each volume that is not local, a main unit, and a timer if it has one. */
  predicate HasUnit(t: Task, kind: UnitKind) {
    match kind
    case Main => true
    case Timer => t.timer != ""
    case Volume(i) => i < |t.volumes| && t.volumes[i].vtype != "local"
    case Proxy(i) => i < multiset(t.tcpLinks)[true]
  }

  /** The order of the units in the main chain of a task. */
  predicate UnitBefore(a: UnitKind, b: UnitKind) {
    match (a, b)
    case (Proxy(i), Proxy(j)) => i < j
    case (Proxy(_), Volume(_)) => true
    case (Volume(i), Volume(j)) => i < j
    case (_, Main) => !a.Main?
    case _ => false
  }

  lemma {:induction false} ProxyKindsAre(tcpLinks: seq<bool>, index: nat)
    ensures |ProxyKinds(tcpLinks, index)| == multiset(tcpLinks)[true]
    ensures forall i :: 0 <= i < |ProxyKinds(tcpLinks, index)| ==> ProxyKinds(tcpLinks, index)[i] == UnitKind.Proxy(index + i)
  {
    if tcpLinks != [] {
      assert tcpLinks == [tcpLinks[0]] + tcpLinks[1..];
      ProxyKindsAre(tcpLinks[1..], if tcpLinks[0] then index + 1 else index);
    }
  }

  lemma {:induction false} VolumeKindsAre(volumes: seq<Jobs.Volume>, index: nat)
    ensures forall k :: k in VolumeKinds(volumes, index) <==>
              k.Volume? && index <= k.index < index + |volumes| && volumes[k.index - index].vtype != "local"
  {
    if volumes == [] {
      assert VolumeKinds(volumes, index) == [];
    } else {
      var rest, all := VolumeKinds(volumes[1..], index + 1), VolumeKinds(volumes, index);
      VolumeKindsAre(volumes[1..], index + 1);
      assert all == (if volumes[0].IsLocal() then [] else [UnitKind.Volume(index)]) + rest;
      hide VolumeKinds;
      forall k ensures k in all <==> k.Volume? && index <= k.index < index + |volumes| && volumes[k.index - index].vtype != "local" {
        if k.Volume? && index < k.index < index + |volumes| {
          assert volumes[1..][k.index - (index + 1)] == volumes[k.index - index];
        }
      }
    }
  }

  lemma {:induction false} VolumeKindsInOrder(volumes: seq<Jobs.Volume>, index: nat)
    ensures forall i :: 0 <= i < |VolumeKinds(volumes, index)| ==>
              VolumeKinds(volumes, index)[i].Volume? && VolumeKinds(volumes, index)[i].index >= index
    ensures forall i, j :: 0 <= i < j < |VolumeKinds(volumes, index)| ==>
              VolumeKinds(volumes, index)[i].index < VolumeKinds(volumes, index)[j].index
  {
    if volumes != [] { VolumeKindsInOrder(volumes[1..], index + 1); }
  }

  /** The main chain of a task has exactly these units, in this order. */
  lemma MainChainIs(t: Task)
    ensures forall k :: k in MainChainKinds(t) <==> !k.Timer? && HasUnit(t, k)
    ensures forall a, b :: 0 <= a < b < |MainChainKinds(t)| ==> UnitBefore(MainChainKinds(t)[a], MainChainKinds(t)[b])
  {
    MainChainMembers(t);
    ProxyKindsAre(t.tcpLinks, 0);
    VolumeKindsInOrder(t.volumes, 0);
    hide ProxyKinds, VolumeKinds, HasUnit, UnitBefore;
    ChainInOrder(ProxyKinds(t.tcpLinks, 0), VolumeKinds(t.volumes, 0));
  }

  lemma MainChainMembers(t: Task)
    ensures forall k :: k in MainChainKinds(t) <==> !k.Timer? && HasUnit(t, k)
  {
    var p, v := ProxyKinds(t.tcpLinks, 0), VolumeKinds(t.volumes, 0);
    ProxyKindsAre(t.tcpLinks, 0);
    VolumeKindsAre(t.volumes, 0);
    hide ProxyKinds, VolumeKinds;
    forall k ensures k in MainChainKinds(t) <==> !k.Timer? && HasUnit(t, k) {
      assert k in MainChainKinds(t) <==> k in p || k in v || k.Main?;
      if k.Proxy? && k.index < |p| { assert p[k.index] == k; }
    }
  }

  lemma ChainInOrder(p: seq<UnitKind>, v: seq<UnitKind>)
    requires forall i :: 0 <= i < |p| ==> p[i] == UnitKind.Proxy(i)
    requires forall i :: 0 <= i < |v| ==> v[i].Volume?
    requires forall i, j :: 0 <= i < j < |v| ==> v[i].index < v[j].index
    ensures forall a, b :: 0 <= a < b < |p + v + [UnitKind.Main]| ==> UnitBefore((p + v + [UnitKind.Main])[a], (p + v + [UnitKind.Main])[b])
  {
    var all := p + v + [UnitKind.Main];
    forall a, b | 0 <= a < b < |all| ensures UnitBefore(all[a], all[b]) {
      assert all[a] == if a < |p| then p[a] else v[a - |p|];
      assert all[b] == if b < |p| then p[b] else if b < |p| + |v| then v[b - |p|] else UnitKind.Main;
    }
  }

  /** A task has exactly these units. */
  lemma TaskKindsAre(t: Task)
    ensures forall k :: k in TaskKinds(t) <==> HasUnit(t, k)
  {
    MainChainIs(t);
    hide MainChainKinds;
  }

  function IdOf(job: string, tg: TaskGroup, t: Task, kind: UnitKind, sg: nat): UnitId {
    UnitId(job, tg.name, t.name, kind, sg, tg.global, tg.count)
  }

  function IdsOf(job: string, tg: TaskGroup, t: Task, kinds: seq<UnitKind>, sg: nat): seq<UnitId> {
    seq(|kinds|, i requires 0 <= i < |kinds| => IdOf(job, tg, t, kinds[i], sg))
  }

  function TasksIds(job: string, tg: TaskGroup, tasks: seq<Task>, sg: nat): seq<UnitId> {
    if tasks == [] then []
    else IdsOf(job, tg, tasks[0], TaskKinds(tasks[0]), sg) + TasksIds(job, tg, tasks[1..], sg)
  }

  /** A task group has units in the scaling groups up to its count. */
  function GroupIds(job: string, tg: TaskGroup, sg: nat): seq<UnitId> {
    if sg > tg.count then [] else TasksIds(job, tg, tg.tasks, sg)
  }

  predicate Includes(selection: seq<string>, group: string) { selection == [] || group in selection }

  function SelectedIds(job: string, tg: TaskGroup, selection: seq<string>, sg: nat): seq<UnitId> {
    if Includes(selection, tg.name) then GroupIds(job, tg, sg) else []
  }

  function GroupsIds(job: string, groups: seq<TaskGroup>, selection: seq<string>, sg: nat): seq<UnitId> {
    if groups == [] then []
    else SelectedIds(job, groups[0], selection, sg) + GroupsIds(job, groups[1..], selection, sg)
  }

  /** The units generated for one scaling group of a selection of task groups. */
  function UnitIds(job: Job, selection: seq<string>, sg: nat): seq<UnitId> {
    GroupsIds(job.name, job.groups, selection, sg)
  }

  function FullNames(ids: seq<UnitId>): (names: seq<string>) {
    seq(|ids|, i requires 0 <= i < |ids| => ids[i].FullName())
  }

  // ----- Generated units are distinct, and belong where they should -----

  ghost predicate DistinctIds(ids: seq<UnitId>) {
    forall i, j :: 0 <= i < j < |ids| ==> ids[i] != ids[j]
  }

  lemma {:induction false} ProxyKindsDistinct(tcpLinks: seq<bool>, index: nat)
    ensures forall k :: k in ProxyKinds(tcpLinks, index) ==> k.Proxy? && k.index >= index
    ensures forall i, j :: 0 <= i < j < |ProxyKinds(tcpLinks, index)| ==> ProxyKinds(tcpLinks, index)[i] != ProxyKinds(tcpLinks, index)[j]
  {
    if tcpLinks != [] {
      ProxyKindsDistinct(tcpLinks[1..], if tcpLinks[0] then index + 1 else index);
    }
  }

  lemma {:induction false} VolumeKindsDistinct(volumes: seq<Jobs.Volume>, index: nat)
    ensures forall k :: k in VolumeKinds(volumes, index) ==> k.Volume? && k.index >= index
    ensures forall i, j :: 0 <= i < j < |VolumeKinds(volumes, index)| ==> VolumeKinds(volumes, index)[i] != VolumeKinds(volumes, index)[j]
  {
    if volumes != [] {
      VolumeKindsDistinct(volumes[1..], index + 1);
    }
  }

  lemma TaskKindsDistinct(t: Task)
    ensures forall i, j :: 0 <= i < j < |TaskKinds(t)| ==> TaskKinds(t)[i] != TaskKinds(t)[j]
  {
    ProxyKindsDistinct(t.tcpLinks, 0);
    VolumeKindsDistinct(t.volumes, 0);
    var p, v := ProxyKinds(t.tcpLinks, 0), VolumeKinds(t.volumes, 0);
    var all := TaskKinds(t);
    forall i, j | 0 <= i < j < |all| ensures all[i] != all[j] {
      assert all[i] == if i < |p| then p[i] else if i < |p| + |v| then v[i - |p|] else UnitKind.Main;
      assert j < |p| ==> all[j] == p[j];
      assert |p| <= j < |p| + |v| ==> all[j] == v[j - |p|];
      assert i < |p| ==> p[i] in p;
      assert |p| <= i < |p| + |v| ==> v[i - |p|] in v;
      assert |p| <= j < |p| + |v| ==> v[j - |p|] in v;
    }
  }

  /** Where the units of a list of tasks come from. */
  lemma {:induction false} TasksIdsOrigin(job: string, tg: TaskGroup, tasks: seq<Task>, sg: nat)
    ensures forall u :: u in TasksIds(job, tg, tasks, sg) <==>
              exists i, k :: 0 <= i < |tasks| && k in TaskKinds(tasks[i]) && u == IdOf(job, tg, tasks[i], k, sg)
  {
    if tasks != [] {
      TasksIdsOrigin(job, tg, tasks[1..], sg);
      var first, rest := IdsOf(job, tg, tasks[0], TaskKinds(tasks[0]), sg), TasksIds(job, tg, tasks[1..], sg);
      forall u ensures u in first + rest <==>
                 exists i, k :: 0 <= i < |tasks| && k in TaskKinds(tasks[i]) && u == IdOf(job, tg, tasks[i], k, sg)
      {
        if u in first {
          var x :| 0 <= x < |first| && first[x] == u;
          assert TaskKinds(tasks[0])[x] in TaskKinds(tasks[0]);
        } else if u in rest {
          var i, k :| 0 <= i < |tasks[1..]| && k in TaskKinds(tasks[1..][i]) && u == IdOf(job, tg, tasks[1..][i], k, sg);
          assert tasks[1..][i] == tasks[i + 1];
        }
        if i, k :| 0 <= i < |tasks| && k in TaskKinds(tasks[i]) && u == IdOf(job, tg, tasks[i], k, sg) {
          if i == 0 {
            var x :| 0 <= x < |TaskKinds(tasks[0])| && TaskKinds(tasks[0])[x] == k;
            assert first[x] == u;
          } else {
            assert tasks[1..][i - 1] == tasks[i];
          }
        }
      }
    }
  }

  lemma {:induction false} TasksIdsDistinct(job: string, tg: TaskGroup, tasks: seq<Task>, sg: nat)
    requires DistinctNames(tasks)
    ensures DistinctIds(TasksIds(job, tg, tasks, sg))
  {
    if tasks != [] {
      var first, rest := IdsOf(job, tg, tasks[0], TaskKinds(tasks[0]), sg), TasksIds(job, tg, tasks[1..], sg);
      TasksIdsDistinct(job, tg, tasks[1..], sg);
      TasksIdsOrigin(job, tg, tasks[1..], sg);
      TaskKindsDistinct(tasks[0]);
      forall u | u in rest ensures u.task != tasks[0].name {
        var i, k :| 0 <= i < |tasks[1..]| && k in TaskKinds(tasks[1..][i]) && u == IdOf(job, tg, tasks[1..][i], k, sg);
        assert tasks[1..][i] == tasks[i + 1];
      }
      JoinDistinct(first, rest);
    }
  }

  lemma JoinDistinct(a: seq<UnitId>, b: seq<UnitId>)
    requires DistinctIds(a) && DistinctIds(b)
    requires forall u, v :: u in a && v in b ==> u != v
    ensures DistinctIds(a + b)
  {
    var c := a + b;
    forall i, j | 0 <= i < j < |c| ensures c[i] != c[j] {
      assert c[i] == if i < |a| then a[i] else b[i - |a|];
      assert c[j] == if j < |a| then a[j] else b[j - |a|];
      if i < |a| <= j { assert a[i] in a && b[j - |a|] in b; }
    }
  }

  /** A unit is generated for a selected group of the job, in a scaling group the group has. */
  predicate IsGenerated(job: Job, selection: seq<string>, sg: nat, u: UnitId) {
    exists g, i :: 0 <= g < |job.groups| && 0 <= i < |job.groups[g].tasks| && IsGeneratedFor(job, selection, sg, g, i, u)
  }

  predicate IsGeneratedFor(job: Job, selection: seq<string>, sg: nat, g: nat, i: nat, u: UnitId)
    requires g < |job.groups| && i < |job.groups[g].tasks|
  {
    var tg := job.groups[g];
    && Includes(selection, tg.name) && sg <= tg.count
    && HasUnit(tg.tasks[i], u.kind) && u == IdOf(job.name, tg, tg.tasks[i], u.kind, sg)
  }

  lemma {:induction false} GroupsIdsOrigin(job: Job, from: nat, selection: seq<string>, sg: nat)
    requires from <= |job.groups|
    ensures forall u :: u in GroupsIds(job.name, job.groups[from..], selection, sg) <==>
              exists g, i :: from <= g < |job.groups| && 0 <= i < |job.groups[g].tasks| && IsGeneratedFor(job, selection, sg, g, i, u)
    decreases |job.groups| - from
  {
    if from < |job.groups| {
      var tg := job.groups[from];
      GroupsIdsOrigin(job, from + 1, selection, sg);
      assert job.groups[from..][0] == tg && job.groups[from..][1..] == job.groups[from + 1..];
      SelectedIdsOrigin(job, from, selection, sg);
      hide IsGeneratedFor, SelectedIds;
    }
  }

  lemma SelectedIdsOrigin(job: Job, g: nat, selection: seq<string>, sg: nat)
    requires g < |job.groups|
    ensures forall u :: u in SelectedIds(job.name, job.groups[g], selection, sg) <==>
              exists i :: 0 <= i < |job.groups[g].tasks| && IsGeneratedFor(job, selection, sg, g, i, u)
  {
    hide TasksIds, TaskKinds, HasUnit;
    var tg := job.groups[g];
    TasksIdsOrigin(job.name, tg, tg.tasks, sg);
    forall i | 0 <= i < |tg.tasks| ensures forall k :: k in TaskKinds(tg.tasks[i]) <==> HasUnit(tg.tasks[i], k) {
      TaskKindsAre(tg.tasks[i]);
    }
    var here := SelectedIds(job.name, tg, selection, sg);
    forall u ensures u in here <==> exists i :: 0 <= i < |tg.tasks| && IsGeneratedFor(job, selection, sg, g, i, u) {
      if u in here {
        var i, k :| 0 <= i < |tg.tasks| && k in TaskKinds(tg.tasks[i]) && u == IdOf(job.name, tg, tg.tasks[i], k, sg);
        assert IsGeneratedFor(job, selection, sg, g, i, u);
      }
    }
  }

  lemma {:induction false} GroupsIdsDistinct(job: Job, from: nat, selection: seq<string>, sg: nat)
    requires job.Valid() && from <= |job.groups|
    ensures DistinctIds(GroupsIds(job.name, job.groups[from..], selection, sg))
    decreases |job.groups| - from
  {
    if from < |job.groups| {
      var tg := job.groups[from];
      GroupsIdsDistinct(job, from + 1, selection, sg);
      GroupsIdsOrigin(job, from + 1, selection, sg);
      TasksIdsDistinct(job.name, tg, tg.tasks, sg);
      TasksIdsOrigin(job.name, tg, tg.tasks, sg);
      assert job.groups[from..][0] == tg && job.groups[from..][1..] == job.groups[from + 1..];
      var here := SelectedIds(job.name, tg, selection, sg);
      var rest := GroupsIds(job.name, job.groups[from + 1..], selection, sg);
      assert forall u :: u in here ==> u.group == tg.name;
      assert forall u :: u in rest ==> u.group != tg.name;
      JoinDistinct(here, rest);
    }
  }

  /** The generated units of one scaling group all have different names. */
  lemma GeneratedNamesDistinct(job: Job, selection: seq<string>, sg: nat)
    requires job.Valid() && sg >= 1
    ensures Distinct(FullNames(UnitIds(job, selection, sg)))
  {
    assert job.groups[0..] == job.groups;
    GroupsIdsDistinct(job, 0, selection, sg);
    GroupsIdsOrigin(job, 0, selection, sg);
    var ids := UnitIds(job, selection, sg);
    forall i, j | 0 <= i < j < |ids| ensures ids[i].FullName() != ids[j].FullName() {
      assert ids[i] in ids && ids[j] in ids;
      GeneratedIdValid(job, selection, sg, ids[i]);
      GeneratedIdValid(job, selection, sg, ids[j]);
      if ids[i].group == ids[j].group {
        SameGroupSameFlags(job, selection, sg, ids[i], ids[j]);
      }
      if ids[i].FullName() == ids[j].FullName() {
        FullNameInjective(ids[i], ids[j]);
      }
    }
  }

  /**
  The units of a job in a scaling group, in the job's own terms: for each task of a selected group
  that has this many instances, the units the task has.
  */
  lemma GeneratedUnitsAre(job: Job, selection: seq<string>, sg: nat, u: UnitId)
    ensures u in UnitIds(job, selection, sg) <==>
              exists tg, t :: tg in job.groups && t in tg.tasks
                && (selection == [] || tg.name in selection) && sg <= tg.count
                && HasUnit(t, u.kind) && u == UnitId(job.name, tg.name, t.name, u.kind, sg, tg.global, tg.count)
  {
    IdsAreGenerated(job, selection, sg);
    hide UnitIds, HasUnit;
    if IsGenerated(job, selection, sg, u) {
      var g, i :| 0 <= g < |job.groups| && 0 <= i < |job.groups[g].tasks| && IsGeneratedFor(job, selection, sg, g, i, u);
      assert job.groups[g] in job.groups && job.groups[g].tasks[i] in job.groups[g].tasks;
    }
    if tg, t :| tg in job.groups && t in tg.tasks
                && (selection == [] || tg.name in selection) && sg <= tg.count
                && HasUnit(t, u.kind) && u == UnitId(job.name, tg.name, t.name, u.kind, sg, tg.global, tg.count)
    {
      var g :| 0 <= g < |job.groups| && job.groups[g] == tg;
      var i :| 0 <= i < |tg.tasks| && tg.tasks[i] == t;
      assert IsGeneratedFor(job, selection, sg, g, i, u);
    }
  }

  lemma GeneratedIdValid(job: Job, selection: seq<string>, sg: nat, u: UnitId)
    requires job.Valid() && sg >= 1 && IsGenerated(job, selection, sg, u)
    ensures u.Valid() && u.job == job.name && u.scalingGroup == sg && Includes(selection, u.group)
  {
  }

  lemma SameGroupSameFlags(job: Job, selection: seq<string>, sg: nat, u: UnitId, v: UnitId)
    requires job.Valid() && IsGenerated(job, selection, sg, u) && IsGenerated(job, selection, sg, v)
    requires u.group == v.group
    ensures u.global == v.global && u.count == v.count
  {
  }

  // ----- A deployment -----

  /** `render` gives the content of the unit with the given full name. */
  datatype Settings = Settings(job: Job, groupSelection: seq<string>, scalingGroupSelection: nat,
                               force: bool, autoContinue: bool, render: string -> string)

  predicate IncludesScalingGroup(selection: nat, sg: nat) { selection == 0 || selection == sg }

  predicate InSelection(job: string, groups: seq<string>, scalingGroup: nat, name: string) {
    && (scalingGroup != 0 ==> IsUnitForScalingGroup(name, job, scalingGroup))
    && if groups == [] then IsUnitForJob(name, job)
       else exists g :: g in groups && IsUnitForTaskGroup(name, job, g)
  }

  /** The predicate that selects the units of the cluster a deployment is about. */
  function CreateUnitNamePredicate(job: string, groups: seq<string>, scalingGroup: nat): string -> bool {
    name => InSelection(job, groups, scalingGroup, name)
  }

  function ScalingGroupTest(job: string): (string, nat) -> bool {
    (name: string, sg: nat) => IsUnitForScalingGroup(name, job, sg)
  }

  function UnitsFor(job: Job, selection: seq<string>, render: string -> string, sg: nat): ScalingGroupUnits {
    var names := FullNames(UnitIds(job, selection, sg));
    ScalingGroupUnits(sg, seq(|names|, i requires 0 <= i < |names| => UnitData(names[i], render(names[i]))))
  }

  /** The scaling groups from `sg` to the highest count, as far as they are selected. */
  function GroupsFrom(s: Settings, sg: nat): seq<ScalingGroupUnits>
    decreases s.job.MaxCount() + 1 - sg
  {
    if sg > s.job.MaxCount() then []
    else (if IncludesScalingGroup(s.scalingGroupSelection, sg)
          then [UnitsFor(s.job, s.groupSelection, s.render, sg)] else [])
         + GroupsFrom(s, sg + 1)
  }

  function PlanOf(s: Settings): Plan {
    Plan(CreateUnitNamePredicate(s.job.name, s.groupSelection, s.scalingGroupSelection),
         ScalingGroupTest(s.job.name), GroupsFrom(s, 1), s.force)
  }

  /** The scaling groups from `sg` on that are selected, each once and in order. */
  ghost predicate AreGroupsFrom(s: Settings, sg: nat, groups: seq<ScalingGroupUnits>) {
    && (forall i :: 0 <= i < |groups| ==>
          && sg <= groups[i].scalingGroup <= s.job.MaxCount()
          && IncludesScalingGroup(s.scalingGroupSelection, groups[i].scalingGroup)
          && groups[i] == UnitsFor(s.job, s.groupSelection, s.render, groups[i].scalingGroup))
    && (forall i, j :: 0 <= i < j < |groups| ==> groups[i].scalingGroup < groups[j].scalingGroup)
    && (forall g :: sg <= g <= s.job.MaxCount() && IncludesScalingGroup(s.scalingGroupSelection, g) ==>
          exists i :: 0 <= i < |groups| && groups[i].scalingGroup == g)
  }

  lemma {:induction false} GroupsFromAre(s: Settings, sg: nat)
    ensures AreGroupsFrom(s, sg, GroupsFrom(s, sg))
    decreases s.job.MaxCount() + 1 - sg
  {
    if sg <= s.job.MaxCount() {
      GroupsFromAre(s, sg + 1);
      OneMoreGroup(s, sg, GroupsFrom(s, sg + 1));
    }
  }

  lemma OneMoreGroup(s: Settings, sg: nat, rest: seq<ScalingGroupUnits>)
    requires sg <= s.job.MaxCount() && AreGroupsFrom(s, sg + 1, rest)
    ensures AreGroupsFrom(s, sg, (if IncludesScalingGroup(s.scalingGroupSelection, sg)
                                  then [UnitsFor(s.job, s.groupSelection, s.render, sg)] else []) + rest)
  {
    hide UnitIds, FullNames, Job.MaxCount;
    var head := if IncludesScalingGroup(s.scalingGroupSelection, sg) then [UnitsFor(s.job, s.groupSelection, s.render, sg)] else [];
    var all := head + rest;
    forall g | sg <= g <= s.job.MaxCount() && IncludesScalingGroup(s.scalingGroupSelection, g)
      ensures exists i :: 0 <= i < |all| && all[i].scalingGroup == g
    {
      if g == sg {
        assert all[0].scalingGroup == g;
      } else {
        var i :| 0 <= i < |rest| && rest[i].scalingGroup == g;
        assert all[i + |head|].scalingGroup == g;
      }
    }
  }

  lemma NamesFor(s: Settings, sg: nat)
    ensures UnitsFor(s.job, s.groupSelection, s.render, sg).Names() == FullNames(UnitIds(s.job, s.groupSelection, sg))
  {
  }

  /** The unit name `n` is one the deployment generates, for scaling group `sg`. */
  ghost predicate IsTarget(s: Settings, sg: nat, n: string) {
    && 1 <= sg <= s.job.MaxCount() && IncludesScalingGroup(s.scalingGroupSelection, sg)
    && exists u :: IsGenerated(s.job, s.groupSelection, sg, u) && u.FullName() == n
  }

  lemma IdsAreGenerated(job: Job, selection: seq<string>, sg: nat)
    ensures forall u :: u in UnitIds(job, selection, sg) <==> IsGenerated(job, selection, sg, u)
  {
    hide IsGeneratedFor, GroupsIds;
    assert job.groups[0..] == job.groups;
    GroupsIdsOrigin(job, 0, selection, sg);
  }

  lemma NamesAreGenerated(s: Settings, sg: nat, n: string)
    requires s.job.Valid()
    ensures n in UnitsFor(s.job, s.groupSelection, s.render, sg).Names()
        <==> exists u :: IsGenerated(s.job, s.groupSelection, sg, u) && u.FullName() == n
  {
    hide UnitIds, IsGenerated, UnitId.FullName;
    var ids := UnitIds(s.job, s.groupSelection, sg);
    NamesFor(s, sg);
    IdsAreGenerated(s.job, s.groupSelection, sg);
    if n in FullNames(ids) {
      var x :| 0 <= x < |ids| && FullNames(ids)[x] == n;
      assert ids[x] in ids;
    }
    if u :| IsGenerated(s.job, s.groupSelection, sg, u) && u.FullName() == n {
      assert u in ids;
      var x :| 0 <= x < |ids| && ids[x] == u;
      assert FullNames(ids)[x] == n;
    }
  }

  /** A generated unit is selected, and is claimed by the scaling group it was generated for. */
  lemma TargetBelongs(s: Settings, sg: nat, n: string)
    requires s.job.Valid() && IsTarget(s, sg, n)
    ensures InSelection(s.job.name, s.groupSelection, s.scalingGroupSelection, n)
    ensures IsUnitForScalingGroup(n, s.job.name, sg)
  {
    var u :| IsGenerated(s.job, s.groupSelection, sg, u) && u.FullName() == n;
    GeneratedIdValid(s.job, s.groupSelection, sg, u);
    RecognisedByItsJob(u, s.job.name);
    RecognisedByItsTaskGroup(u, s.job.name, u.group);
    RecognisedByItsScalingGroup(u, s.job.name, sg);
  }

  /** Fleet can read the text of every generated unit. */
  ghost predicate RenderedReadable(s: Settings) {
    forall sg, n :: IsTarget(s, sg, n) ==> Stored(s.render(n)).Some?
  }

  lemma GroupReadable(s: Settings, i: nat)
    requires s.job.Valid() && RenderedReadable(s) && i < |GroupsFrom(s, 1)|
    ensures Readable(GroupsFrom(s, 1)[i].units)
  {
    hide Stored;
    GroupsFromAre(s, 1);
    var group := GroupsFrom(s, 1)[i];
    forall k | 0 <= k < |group.units| ensures Stored(group.units[k].content).Some? {
      var n := group.units[k].name;
      assert group.Names()[k] == n;
      NamesAreGenerated(s, group.scalingGroup, n);
      assert IsTarget(s, group.scalingGroup, n);
    }
  }

  lemma PlanNameBelongs(s: Settings, i: nat, name: string)
    requires s.job.Valid() && i < |PlanOf(s).groups| && name in PlanOf(s).groups[i].Names()
    ensures PlanOf(s).InGroup(i, name)
  {
    hide InSelection, IsUnitForScalingGroup, UnitIds, GroupsFrom, UnitId.FullName, IsGenerated;
    GroupsFromAre(s, 1);
    var sg := PlanOf(s).groups[i].scalingGroup;
    NamesAreGenerated(s, sg, name);
    TargetBelongs(s, sg, name);
  }

  /** The names and texts J2 generates meet everything the reconciliation loop relies on. */
  lemma PlanWellFormed(s: Settings)
    requires s.job.Valid() && RenderedReadable(s)
    ensures PlanOf(s).WellFormed()
  {
    hide InSelection, IsUnitForScalingGroup, UnitIds, GroupsFrom, Readable, UnitId.FullName, IsGenerated;
    var plan := PlanOf(s);
    GroupsFromAre(s, 1);
    forall i, j, name | 0 <= i < |plan.groups| && 0 <= j < |plan.groups| && plan.InGroup(i, name) && plan.InGroup(j, name)
      ensures i == j
    {
      ScalingGroupsAreExclusive(name, s.job.name, plan.groups[i].scalingGroup, plan.groups[j].scalingGroup);
    }
    forall i | 0 <= i < |plan.groups| ensures Distinct(plan.groups[i].Names()) {
      NamesFor(s, plan.groups[i].scalingGroup);
      GeneratedNamesDistinct(s.job, s.groupSelection, plan.groups[i].scalingGroup);
    }
    forall i, name | 0 <= i < |plan.groups| && name in plan.groups[i].Names() ensures plan.InGroup(i, name) {
      PlanNameBelongs(s, i, name);
    }
    forall i | 0 <= i < |plan.groups| ensures Readable(plan.groups[i].units) { GroupReadable(s, i); }
  }

  /**
  Exactly the generated units of the selection are there, and each has the text that fleet makes of
  the rendered one, or that J2 takes for the rendered one.
  */
  ghost predicate Deployed(s: Settings, units: Registry) {
    forall n :: InSelection(s.job.name, s.groupSelection, s.scalingGroupSelection, n) ==>
      && (n in units <==> exists sg :: IsTarget(s, sg, n))
      && (n in units ==> UpToDate(units[n], s.render(n)))
  }

  lemma ConvergedIsDeployed(s: Settings, snapshot: Snapshot)
    requires s.job.Valid() && Converged(PlanOf(s), snapshot)
    ensures Deployed(s, snapshot.units)
  {
    hide UpToDate;
    forall n | InSelection(s.job.name, s.groupSelection, s.scalingGroupSelection, n)
      ensures n in snapshot.units <==> exists sg :: IsTarget(s, sg, n)
      ensures n in snapshot.units ==> UpToDate(snapshot.units[n], s.render(n))
    {
      assert PlanOf(s).selected(n);
      if n in snapshot.units { PresentIsTarget(s, snapshot, n); }
      if sg :| IsTarget(s, sg, n) { TargetIsPresent(s, snapshot, sg, n); }
    }
  }

  lemma PresentIsTarget(s: Settings, snapshot: Snapshot, n: string)
    requires s.job.Valid() && Converged(PlanOf(s), snapshot) && n in snapshot.units && PlanOf(s).selected(n)
    ensures exists sg :: IsTarget(s, sg, n)
  {
    hide UpToDate, UnitIds, IsGenerated, GroupsFrom, UnitId.FullName, InSelection;
    GroupsFromAre(s, 1);
    var groups := PlanOf(s).groups;
    var i :| 0 <= i < |groups| && n in groups[i].Names();
    NamesAreGenerated(s, groups[i].scalingGroup, n);
    assert IsTarget(s, groups[i].scalingGroup, n);
  }

  lemma TargetIsPresent(s: Settings, snapshot: Snapshot, sg: nat, n: string)
    requires s.job.Valid() && Converged(PlanOf(s), snapshot) && IsTarget(s, sg, n)
    ensures n in snapshot.units && UpToDate(snapshot.units[n], s.render(n))
  {
    var i := TargetGroup(s, sg, n);
    RenderedContent(s, sg, n);
    ConvergedAt(PlanOf(s), snapshot, i, UnitsFor(s.job, s.groupSelection, s.render, sg), n);
  }

  lemma TargetGroup(s: Settings, sg: nat, n: string) returns (i: nat)
    requires s.job.Valid() && IsTarget(s, sg, n)
    ensures i < |GroupsFrom(s, 1)| && GroupsFrom(s, 1)[i] == UnitsFor(s.job, s.groupSelection, s.render, sg)
    ensures n in UnitsFor(s.job, s.groupSelection, s.render, sg).Names()
  {
    GroupsFromAre(s, 1);
    i :| 0 <= i < |GroupsFrom(s, 1)| && GroupsFrom(s, 1)[i].scalingGroup == sg;
    NamesAreGenerated(s, sg, n);
  }

  lemma RenderedContent(s: Settings, sg: nat, n: string)
    requires n in UnitsFor(s.job, s.groupSelection, s.render, sg).Names()
    ensures UnitsFor(s.job, s.groupSelection, s.render, sg).Get(n).value.content == s.render(n)
  {
  }

  /**
  Units of other jobs, of task groups that are not selected, and of scaling groups that are not
  selected, are outside the selection, so that no run touches them.
  */
  lemma OthersAreNotSelected(s: Settings, u: UnitId)
    requires s.job.Valid() && u.Valid()
    requires forall g :: g in s.groupSelection ==> ValidGroupName(g)
    ensures InSelection(s.job.name, s.groupSelection, s.scalingGroupSelection, u.FullName())
        <==> && u.job == s.job.name
             && (s.groupSelection == [] || u.group in s.groupSelection)
             && (s.scalingGroupSelection == 0 || s.scalingGroupSelection == u.scalingGroup)
  {
    var n := u.FullName();
    RecognisedByItsJob(u, s.job.name);
    RecognisedByItsScalingGroup(u, s.job.name, s.scalingGroupSelection);
    forall g | g in s.groupSelection
      ensures IsUnitForTaskGroup(n, s.job.name, g) <==> u.job == s.job.name && g == u.group
    {
      RecognisedByItsTaskGroup(u, s.job.name, g);
    }
  }

  class Deployment {
    const settings: Settings
    var scalingGroups: seq<ScalingGroupUnits>

    constructor (settings: Settings)
      ensures this.settings == settings && scalingGroups == []
    {
      this.settings := settings;
      scalingGroups := [];
    }

    method GenerateScalingGroups()
      modifies this
      ensures scalingGroups == old(scalingGroups) + GroupsFrom(settings, 1)
    {
      var sg := 1;
      while sg <= settings.job.MaxCount()
        invariant 1 <= sg
        invariant scalingGroups + GroupsFrom(settings, sg) == old(scalingGroups) + GroupsFrom(settings, 1)
      {
        if IncludesScalingGroup(settings.scalingGroupSelection, sg) {
          var units := UnitsFor(settings.job, settings.groupSelection, settings.render, sg);
          assert scalingGroups + ([units] + GroupsFrom(settings, sg + 1)) == (scalingGroups + [units]) + GroupsFrom(settings, sg + 1);
          scalingGroups := scalingGroups + [units];
        }
        sg := sg + 1;
      }
      assert GroupsFrom(settings, sg) == [];
      assert scalingGroups + [] == scalingGroups;
    }

    /**
    Run deploys a valid job. Afterwards the selected part of the cluster is exactly what the job
    describes, nothing outside the selection has been touched, and a cluster that was in sync is
    left alone.
    */
    method Run(c: Cluster, confirm: nat -> bool) returns (r: RunResult, ghost segments: seq<seq<Effect>>)
      requires settings.job.Valid() && scalingGroups == []
      requires settings.scalingGroupSelection <= settings.job.MaxCount() && RenderedReadable(settings) && c.Valid()
      modifies this, c
      ensures c.Valid()
      ensures r.Done? ==> Deployed(settings, c.units)
      ensures forall n :: !InSelection(settings.job.name, settings.groupSelection, settings.scalingGroupSelection, n) ==>
                old(Snapshot(c.units, c.states, c.launched)).Same(Snapshot(c.units, c.states, c.launched), n)
      ensures c.log == old(c.log) + Flatten(segments)
      ensures RunOutcome(PlanOf(settings), old(Snapshot(c.units, c.states, c.launched)), Snapshot(c.units, c.states, c.launched), r, segments)
      ensures EndsRight(PlanOf(settings), old(Snapshot(c.units, c.states, c.launched)), settings.autoContinue, confirm, r)
      ensures InSync(PlanOf(settings), old(Snapshot(c.units, c.states, c.launched))) ==>
                r == Done(0) && c.log == old(c.log) && Snapshot(c.units, c.states, c.launched) == old(Snapshot(c.units, c.states, c.launched))
    {
      GenerateScalingGroups();
      SomeGroup(settings);
      PlanWellFormed(settings);
      var plan := PlanOf(settings).(groups := scalingGroups);
      assert plan == PlanOf(settings);
      r, segments := Reconcile.Run(c, plan, settings.autoContinue, confirm);
      if r.Done? {
        ConvergedIsDeployed(settings, Snapshot(c.units, c.states, c.launched));
      }
    }

    /** Destroy removes the selected units and nothing else. */
    method Destroy(c: Cluster, confirmed: bool) returns (done: bool)
      requires c.Valid()
      modifies c
      ensures c.Valid()
      ensures var s := settings;
              forall n :: old(Snapshot(c.units, c.states, c.launched)).Same(Snapshot(c.units, c.states, c.launched), n) ||
                (done && InSelection(s.job.name, s.groupSelection, s.scalingGroupSelection, n) && n !in c.units)
      ensures done ==> forall n :: n in c.units ==>
                !InSelection(settings.job.name, settings.groupSelection, settings.scalingGroupSelection, n)
      ensures done <==> (confirmed || settings.force ||
                         forall n :: n in old(c.units) ==>
                           !InSelection(settings.job.name, settings.groupSelection, settings.scalingGroupSelection, n))
    {
      hide InSelection, DestroyEffects, Snapshot.Same;
      ghost var before := Snapshot(c.units, c.states, c.launched);
      SameAsBefore(before);
      var s := settings;
      var list := c.List();
      var names := SelectUnitNames(list, CreateUnitNamePredicate(s.job.name, s.groupSelection, s.scalingGroupSelection));
      assert forall n :: n in names <==> n in ToSet(list) && InSelection(s.job.name, s.groupSelection, s.scalingGroupSelection, n);
      assert names != [] ==> names[0] in names;
      if names == [] {
        return true;
      }
      if !s.force && !confirmed {
        return false;
      }
      ghost var effects, who;
      effects, who := c.DestroyUnits([], [], names);
      assert [] + [] + names == names;
      DestroyedOrSame(before, Snapshot(c.units, c.states, c.launched), ToSet(names));
      done := true;
    }
  }

  lemma SameAsBefore(s: Snapshot)
    ensures forall n :: s.Same(s, n)
  {
  }

  lemma DestroyedOrSame(before: Snapshot, after: Snapshot, gone: set<string>)
    requires after == Snapshot(before.units - gone, before.states - gone, before.launched - gone)
    ensures forall n :: before.Same(after, n) || n in gone
  {
  }

  lemma SomeGroup(s: Settings)
    requires s.job.Valid() && s.scalingGroupSelection <= s.job.MaxCount()
    ensures |GroupsFrom(s, 1)| > 0
  {
    GroupsFromAre(s, 1);
    var g := if s.scalingGroupSelection == 0 then 1 else s.scalingGroupSelection;
    assert s.job.groups[0].count <= s.job.MaxCount();
    assert IncludesScalingGroup(s.scalingGroupSelection, g);
  }

  /** J2 takes what fleet makes of the rendered text for unmodified, for every generated unit. */
  ghost predicate StableTexts(s: Settings) {
    forall sg, n :: IsTarget(s, sg, n) ==> Stored(s.render(n)).Some? && SameContent(Stored(s.render(n)).value, s.render(n))
  }

  /** J2 takes the unit on the cluster for unmodified, for every generated unit. */
  ghost predicate UnmodifiedTargets(s: Settings, units: Registry) {
    forall sg, n :: IsTarget(s, sg, n) ==> n in units && SameContent(units[n], s.render(n))
  }

  /** No unit that looks unmodified to J2 has another text than fleet makes of the rendered one. */
  ghost predicate NoForeignTexts(s: Settings, units: Registry) {
    forall sg, n :: IsTarget(s, sg, n) && n in units && SameContent(units[n], s.render(n)) ==> Stored(s.render(n)) == Some(units[n])
  }

  /**
  Running twice. Once a run has completed and no unit has failed, running again without force asks
  nothing, touches nothing and counts no modification if and only if J2 takes every generated unit
  for unmodified. When the first run found nothing but what it could have created itself, this is
  so if and only if fleet gives every rendered text back unmodified.
  */
  method RunTwice(s: Settings, c: Cluster, confirm: nat -> bool)
    returns (first: RunResult, second: RunResult, ghost middle: Snapshot, ghost middleLog: seq<Effect>)
    requires s.job.Valid() && s.scalingGroupSelection <= s.job.MaxCount() && RenderedReadable(s) && c.Valid()
    modifies c
    ensures first.Done? ==> Deployed(s, middle.units)
    ensures first.Done? && NothingFailed(PlanOf(s), middle) ==>
              ((second == Done(0) && c.log == middleLog && Snapshot(c.units, c.states, c.launched) == middle)
               <==> UnmodifiedTargets(s, middle.units))
    ensures first.Done? && (s.force || NoForeignTexts(s, old(c.units))) ==> (UnmodifiedTargets(s, middle.units) <==> StableTexts(s))
  {
    hide SameContent, Stored, RunOutcome, NothingFailed, PlanOf, Deployed, UnmodifiedTargets, StableTexts, NoForeignTexts, IsTarget, InSync,
         RenderedReadable, Plan.WellFormed, InSelection, Snapshot.Same;
    ghost var segments;
    ghost var before := Snapshot(c.units, c.states, c.launched);
    var d := new Deployment(s);
    first, segments := d.Run(c, confirm);
    middle, middleLog := Snapshot(c.units, c.states, c.launched), c.log;
    PlanWellFormed(s);
    if first.Done? {
      FirstRunTexts(s, before, middle, first, segments);
      if NothingFailed(PlanOf(s), middle) { SecondRunIdle(s, before, middle, first, segments); }
    }
    var again := s.(force := false);
    ForceIsNotRendered(s);
    ReadableAgain(s);
    d := new Deployment(again);
    ghost var more;
    second, more := d.Run(c, confirm);
    if second.Done? && c.log == middleLog {
      assert Flatten(more) == [];
      PlanWellFormed(again);
      NotForced(again);
      IdleMeansInSync(PlanOf(again), middle, Snapshot(c.units, c.states, c.launched), second, more);
    }
  }

  /** Every target is rendered as J2 renders units. */
  ghost predicate RenderedAs(s: Settings, unit: string -> UnitText) {
    forall sg, n :: IsTarget(s, sg, n) ==>
      && s.render(n) == Text(unit(n).Sections())
      && PlainSections(unit(n).Sections()) && unit(n).typed.options != []
  }

  /** All texts are readable, and come back unmodified if and only if every generated unit has a fleet option. */
  lemma StableIfFleetOptions(s: Settings, unit: string -> UnitText)
    requires RenderedAs(s, unit)
    ensures RenderedReadable(s)
    ensures StableTexts(s) <==> forall sg, n :: IsTarget(s, sg, n) ==> unit(n).fleet != []
  {
    hide PlainSections, Text, Stored, SameContent, IsTarget;
    forall sg, n | IsTarget(s, sg, n)
      ensures Stored(s.render(n)).Some?
      ensures SameContent(Stored(s.render(n)).value, s.render(n)) <==> unit(n).fleet != []
    {
      RenderedIsStable(unit(n));
    }
  }

  lemma NotForced(s: Settings)
    requires !s.force
    ensures !PlanOf(s).force
  {
  }

  lemma ReadableAgain(s: Settings)
    requires RenderedReadable(s)
    ensures RenderedReadable(s.(force := false))
  {
    hide Stored;
    var again := s.(force := false);
    forall sg, n | IsTarget(again, sg, n) ensures Stored(again.render(n)).Some? {
      assert IsTarget(s, sg, n);
    }
  }

  /** A target in terms of the plan. */
  lemma TargetInPlan(s: Settings, sg: nat, n: string) returns (i: nat)
    requires s.job.Valid() && IsTarget(s, sg, n)
    ensures i < |PlanOf(s).groups| && n in PlanOf(s).groups[i].Names() && PlanOf(s).Content(i, n) == s.render(n)
  {
    i := TargetGroup(s, sg, n);
    RenderedContent(s, sg, n);
  }

  lemma PlanNameIsTarget(s: Settings, i: nat, n: string)
    requires s.job.Valid() && i < |PlanOf(s).groups| && n in PlanOf(s).groups[i].Names()
    ensures exists sg :: IsTarget(s, sg, n)
    ensures PlanOf(s).Content(i, n) == s.render(n)
  {
    GroupsFromAre(s, 1);
    var group := PlanOf(s).groups[i];
    NamesAreGenerated(s, group.scalingGroup, n);
    assert IsTarget(s, group.scalingGroup, n);
    RenderedContent(s, group.scalingGroup, n);
  }

  lemma UnmodifiedIsUnmodified(s: Settings, snapshot: Snapshot)
    requires s.job.Valid() && RightUnits(PlanOf(s), snapshot)
    ensures Unmodified(PlanOf(s), snapshot) <==> UnmodifiedTargets(s, snapshot.units)
  {
    hide SameContent, IsTarget, PlanOf;
    if Unmodified(PlanOf(s), snapshot) {
      forall sg, n | IsTarget(s, sg, n) ensures n in snapshot.units && SameContent(snapshot.units[n], s.render(n)) {
        var i := TargetInPlan(s, sg, n);
      }
    }
    if UnmodifiedTargets(s, snapshot.units) {
      forall i, n | 0 <= i < |PlanOf(s).groups| && n in PlanOf(s).groups[i].Names()
        ensures SameContent(snapshot.units[n], PlanOf(s).Content(i, n))
      {
        PlanNameIsTarget(s, i, n);
      }
    }
  }

  lemma SecondRunIdle(s: Settings, before: Snapshot, middle: Snapshot, first: RunResult, segments: seq<seq<Effect>>)
    requires s.job.Valid() && RunOutcome(PlanOf(s), before, middle, first, segments) && first.Done? && NothingFailed(PlanOf(s), middle)
    ensures InSync(PlanOf(s).(force := false), middle) <==> UnmodifiedTargets(s, middle.units)
  {
    hide RunOutcome, NothingFailed, InSync, PlanOf, UnmodifiedTargets, Unmodified, RightUnits;
    DoneIsInSync(PlanOf(s), before, middle, first, segments);
    UnmodifiedIsUnmodified(s, middle);
  }

  lemma FirstRunTexts(s: Settings, before: Snapshot, middle: Snapshot, first: RunResult, segments: seq<seq<Effect>>)
    requires s.job.Valid() && RenderedReadable(s) && PlanOf(s).WellFormed()
    requires RunOutcome(PlanOf(s), before, middle, first, segments) && first.Done?
    ensures s.force || NoForeignTexts(s, before.units) ==> (UnmodifiedTargets(s, middle.units) <==> StableTexts(s))
  {
    hide SameContent, Stored, RunOutcome, IsTarget, Plan.WellFormed;
    if s.force || NoForeignTexts(s, before.units) {
      forall sg, n | IsTarget(s, sg, n) ensures n in middle.units && Stored(s.render(n)) == Some(middle.units[n]) {
        var i := TargetInPlan(s, sg, n);
        WhereTextsComeFrom(PlanOf(s), before, middle, first, segments, i, n);
      }
    }
  }

  lemma {:induction false} GroupsFromIgnoreForce(s: Settings, sg: nat)
    ensures GroupsFrom(s, sg) == GroupsFrom(s.(force := false), sg)
    decreases s.job.MaxCount() + 1 - sg
  {
    if sg <= s.job.MaxCount() {
      GroupsFromIgnoreForce(s, sg + 1);
    }
  }

  lemma ForceIsNotRendered(s: Settings)
    ensures PlanOf(s.(force := false)) == PlanOf(s).(force := false)
  {
    GroupsFromIgnoreForce(s, 1);
  }
}
