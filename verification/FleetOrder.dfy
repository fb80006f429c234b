/**
The start order of the units of a task group: which unit comes after which, when the whole order is
free of cycles, and how far requirements tie the units together.
*/
module FleetOrder {
  import opened UnitNames
  import opened Jobs
  import opened FleetUnits
  import opened Graph
  import Deployment

  // ----- The graphs -----

  /** Tasks with the tasks they name in After and VolumesFrom. */
  ghost function TaskEdges(tasks: seq<Task>): Edges {
    (set t, n | t in tasks && n in t.after :: (t.name, n)) + (set t, n | t in tasks && n in t.volumesFrom :: (t.name, n))
  }

  /** All After options of all units. */
  ghost function UnitEdges(tasks: seq<Task>, specs: seq<ChainSpec>): Edges
    requires |specs| == |tasks|
  {
    set i, k, d | 0 <= i < |specs| && 0 <= k < |specs[i].names| && d in UnitAfter(tasks, specs, i, k) :: (specs[i].names[k], d)
  }

  /** All requirements of all units. */
  ghost function RequireEdges(specs: seq<ChainSpec>, restartAll: bool): Edges {
    set i, k, d | 0 <= i < |specs| && 0 <= k < |specs[i].names| && d in UnitRequire(specs, restartAll, i, k) :: (specs[i].names[k], d)
  }

  ghost predicate IsUnit(specs: seq<ChainSpec>, i: int, k: int, x: string) {
    0 <= i < |specs| && 0 <= k < |specs[i].names| && specs[i].names[k] == x
  }

  ghost predicate UniqueUnits(specs: seq<ChainSpec>) {
    forall i, k, j, l, x :: IsUnit(specs, i, k, x) && IsUnit(specs, j, l, x) ==> i == j && k == l
  }

  ghost predicate ServicesAreNoUnits(specs: seq<ChainSpec>) {
    forall i, k, x, j :: IsUnit(specs, i, k, x) && 0 <= j < |specs| ==> x !in specs[j].baseAfter && x !in specs[j].baseRequire
  }

  ghost predicate VolumesAreMains(tasks: seq<Task>, specs: seq<ChainSpec>)
    requires |specs| == |tasks|
  {
    forall i :: 0 <= i < |specs| ==>
      && |specs[i].volumes| == |tasks[i].volumesFrom|
      && forall v :: 0 <= v < |specs[i].volumes| ==> IsMainOf(tasks, specs, tasks[i].volumesFrom[v], specs[i].volumes[v])
  }

  ghost function MainOf(specs: seq<ChainSpec>, i: nat): string
    requires i < |specs| && |specs[i].names| > 0
  {
    specs[i].names[|specs[i].names| - 1]
  }

  ghost predicate IsMainOf(tasks: seq<Task>, specs: seq<ChainSpec>, name: string, x: string)
    requires |specs| == |tasks|
  {
    var j := IndexByName(tasks, name);
    j >= 0 && |specs[j].names| > 0 && x == MainOf(specs, j)
  }

  ghost predicate WellFormed(tasks: seq<Task>, specs: seq<ChainSpec>) {
    && |specs| == |tasks| && DistinctNames(tasks)
    && (forall i :: 0 <= i < |tasks| ==> LinksExist(tasks, tasks[i]))
    && (forall i :: 0 <= i < |specs| ==> |specs[i].names| > 0)
    && UniqueUnits(specs) && ServicesAreNoUnits(specs) && VolumesAreMains(tasks, specs)
  }

  // ----- The generated chains are well formed -----

  lemma DashInFullName(u: UnitId)
    requires u.Valid()
    ensures '-' in u.FullName()
  {
    FullNameParts(u);
    assert u.FullName()[|u.job|] == '-';
  }

  lemma SpecNames(job: string, tg: TaskGroup, sg: nat, options: ClusterOptions, i: nat, k: nat)
    requires ValidJobName(job) && tg.Valid() && 1 <= sg <= tg.count
    requires VolumesExist(tg.tasks) && i < |tg.tasks| && k < |SpecsOf(job, tg, sg, options)[i].names|
    ensures k < |Deployment.MainChainKinds(tg.tasks[i])|
    ensures var u := Deployment.IdOf(job, tg, tg.tasks[i], Deployment.MainChainKinds(tg.tasks[i])[k], sg);
            u.Valid() && SpecsOf(job, tg, sg, options)[i].names[k] == u.FullName()
  {
  }

  lemma MainKindsDistinct(t: Task, k: nat, l: nat)
    requires k < |Deployment.MainChainKinds(t)| && l < |Deployment.MainChainKinds(t)|
    requires Deployment.MainChainKinds(t)[k] == Deployment.MainChainKinds(t)[l]
    ensures k == l
  {
    Deployment.TaskKindsDistinct(t);
    assert Deployment.TaskKinds(t)[k] == Deployment.MainChainKinds(t)[k];
    assert Deployment.TaskKinds(t)[l] == Deployment.MainChainKinds(t)[l];
  }

  lemma SpecsAreUnique(job: string, tg: TaskGroup, sg: nat, options: ClusterOptions)
    requires ValidJobName(job) && tg.Valid() && 1 <= sg <= tg.count && VolumesExist(tg.tasks)
    ensures UniqueUnits(SpecsOf(job, tg, sg, options))
  {
    var specs := SpecsOf(job, tg, sg, options);
    forall i, k, j, l, x | IsUnit(specs, i, k, x) && IsUnit(specs, j, l, x) ensures i == j && k == l {
      SpecNames(job, tg, sg, options, i, k);
      SpecNames(job, tg, sg, options, j, l);
      FullNameInjective(Deployment.IdOf(job, tg, tg.tasks[i], Deployment.MainChainKinds(tg.tasks[i])[k], sg),
                        Deployment.IdOf(job, tg, tg.tasks[j], Deployment.MainChainKinds(tg.tasks[j])[l], sg));
      assert i == j;
      MainKindsDistinct(tg.tasks[i], k, l);
    }
  }

  /** What all units come after is no generated unit of the job: system services have no dash, and units of the job are excluded. */
  lemma BaseIsNoUnit(job: string, tg: TaskGroup, sg: nat, options: ClusterOptions, j: nat, u: UnitId)
    requires VolumesExist(tg.tasks) && j < |tg.tasks| && ValidJobName(job) && u.Valid() && u.job == job
    ensures u.FullName() !in SpecsOf(job, tg, sg, options)[j].baseAfter
    ensures u.FullName() !in SpecsOf(job, tg, sg, options)[j].baseRequire
  {
    var n := u.FullName();
    DashInFullName(u);
    RecognisedByItsJob(u, job);
    assert '-' !in "docker.service" && '-' !in "weave.service";
    assert SpecsOf(job, tg, sg, options)[j].baseAfter == Excluded(job, options.after) + Services(tg.tasks[j]);
    assert SpecsOf(job, tg, sg, options)[j].baseRequire == Excluded(job, options.requires_) + Services(tg.tasks[j]);
    hide SpecsOf, UnitId.FullName, UnitId.Valid, IsUnitForJob;
    assert n !in Services(tg.tasks[j]);
  }

  lemma SpecsAreNoServices(job: string, tg: TaskGroup, sg: nat, options: ClusterOptions)
    requires ValidJobName(job) && tg.Valid() && 1 <= sg <= tg.count && VolumesExist(tg.tasks)
    ensures ServicesAreNoUnits(SpecsOf(job, tg, sg, options))
  {
    var specs := SpecsOf(job, tg, sg, options);
    forall i, k, x, j | IsUnit(specs, i, k, x) && 0 <= j < |specs| ensures x !in specs[j].baseAfter && x !in specs[j].baseRequire {
      SpecNames(job, tg, sg, options, i, k);
      BaseIsNoUnit(job, tg, sg, options, j, Deployment.IdOf(job, tg, tg.tasks[i], Deployment.MainChainKinds(tg.tasks[i])[k], sg));
    }
  }

  lemma LinksMeanVolumesExist(tg: TaskGroup)
    requires tg.Valid()
    ensures VolumesExist(tg.tasks)
  {
    forall t, n | t in tg.tasks && n in t.volumesFrom ensures HasTask(tg.tasks, n) {
      var i :| 0 <= i < |tg.tasks| && tg.tasks[i] == t;
      assert LinksExist(tg.tasks, tg.tasks[i]);
    }
  }

  lemma VolumesAreMainNames(job: string, tg: TaskGroup, sg: nat, options: ClusterOptions)
    requires tg.Valid() && VolumesExist(tg.tasks)
    ensures VolumesAreMains(tg.tasks, SpecsOf(job, tg, sg, options))
  {
    hide UnitId.FullName, TaskGroup.Valid;
    var tasks, specs := tg.tasks, SpecsOf(job, tg, sg, options);
    forall i, v | 0 <= i < |specs| && 0 <= v < |specs[i].volumes|
      ensures IsMainOf(tasks, specs, tasks[i].volumesFrom[v], specs[i].volumes[v])
    {
      assert tasks[i].volumesFrom[v] in tasks[i].volumesFrom;
      var j := IndexByName(tasks, tasks[i].volumesFrom[v]);
      var kinds := Deployment.MainChainKinds(tasks[j]);
      assert kinds[|kinds| - 1] == UnitKind.Main;
      assert specs[j].names[|kinds| - 1] == Deployment.IdOf(job, tg, tasks[j], kinds[|kinds| - 1], sg).FullName();
    }
  }

  lemma SpecsAreWellFormed(job: string, tg: TaskGroup, sg: nat, options: ClusterOptions)
    requires ValidJobName(job) && tg.Valid() && 1 <= sg <= tg.count
    ensures VolumesExist(tg.tasks) && WellFormed(tg.tasks, SpecsOf(job, tg, sg, options))
  {
    LinksMeanVolumesExist(tg);
    SpecsAreUnique(job, tg, sg, options);
    SpecsAreNoServices(job, tg, sg, options);
    VolumesAreMainNames(job, tg, sg, options);
    SpecsHaveMain(job, tg, sg, options);
  }

  // ----- Which unit comes after which -----

  lemma {:induction false} InChainsOf(tasks: seq<Task>, specs: seq<ChainSpec>, names: seq<string>, d: string)
    requires |specs| == |tasks|
    ensures d in ChainsOf(tasks, specs, names) <==>
              exists n :: n in names && IndexByName(tasks, n) >= 0 && d in specs[IndexByName(tasks, n)].names
  {
    if names != [] {
      var init, last := names[..|names| - 1], names[|names| - 1];
      InChainsOf(tasks, specs, init, d);
      assert names == init + [last];
      if n :| n in init && IndexByName(tasks, n) >= 0 && d in specs[IndexByName(tasks, n)].names {
        assert n in names;
      }
      if n :| n in names && IndexByName(tasks, n) >= 0 && d in specs[IndexByName(tasks, n)].names {
        assert n == last || n in init;
      }
    }
  }

  lemma UniquePlace(specs: seq<ChainSpec>, i: nat, k: nat, j: nat, l: nat)
    requires UniqueUnits(specs) && i < |specs| && k < |specs[i].names| && j < |specs| && l < |specs[j].names|
    requires specs[i].names[k] == specs[j].names[l]
    ensures i == j && k == l
  {
    assert IsUnit(specs, i, k, specs[i].names[k]) && IsUnit(specs, j, l, specs[i].names[k]);
  }

  lemma InVolumes(tasks: seq<Task>, specs: seq<ChainSpec>, i: nat, j: nat, l: nat)
    requires WellFormed(tasks, specs) && i < |specs| && j < |specs| && l < |specs[j].names|
    ensures specs[j].names[l] in specs[i].volumes <==> l == |specs[j].names| - 1 && tasks[j].name in tasks[i].volumesFrom
  {
    hide UniqueUnits, ServicesAreNoUnits, LinksExist;
    if specs[j].names[l] in specs[i].volumes { VolumeIsMain(tasks, specs, i, j, l); }
    if l == |specs[j].names| - 1 && tasks[j].name in tasks[i].volumesFrom { MainIsVolume(tasks, specs, i, j); }
  }

  lemma VolumeIsMain(tasks: seq<Task>, specs: seq<ChainSpec>, i: nat, j: nat, l: nat)
    requires WellFormed(tasks, specs) && i < |specs| && j < |specs| && l < |specs[j].names|
    requires specs[j].names[l] in specs[i].volumes
    ensures l == |specs[j].names| - 1 && tasks[j].name in tasks[i].volumesFrom
  {
    hide UniqueUnits, ServicesAreNoUnits, LinksExist;
    var d := specs[j].names[l];
    var v :| 0 <= v < |specs[i].volumes| && specs[i].volumes[v] == d;
    assert IsMainOf(tasks, specs, tasks[i].volumesFrom[v], d);
    var o := IndexByName(tasks, tasks[i].volumesFrom[v]);
    UniquePlace(specs, j, l, o, |specs[o].names| - 1);
  }

  lemma MainIsVolume(tasks: seq<Task>, specs: seq<ChainSpec>, i: nat, j: nat)
    requires WellFormed(tasks, specs) && i < |specs| && j < |specs| && tasks[j].name in tasks[i].volumesFrom
    ensures MainOf(specs, j) in specs[i].volumes
  {
    hide UniqueUnits, ServicesAreNoUnits, LinksExist;
    var v :| 0 <= v < |tasks[i].volumesFrom| && tasks[i].volumesFrom[v] == tasks[j].name;
    IndexIsUnique(tasks, j);
    assert IsMainOf(tasks, specs, tasks[i].volumesFrom[v], specs[i].volumes[v]);
  }

  lemma InAfterChains(tasks: seq<Task>, specs: seq<ChainSpec>, i: nat, j: nat, l: nat)
    requires WellFormed(tasks, specs) && i < |specs| && j < |specs| && l < |specs[j].names|
    ensures specs[j].names[l] in ChainsOf(tasks, specs, tasks[i].after) <==> tasks[j].name in tasks[i].after
  {
    var d := specs[j].names[l];
    assert IsUnit(specs, j, l, d);
    InChainsOf(tasks, specs, tasks[i].after, d);
    IndexIsUnique(tasks, j);
    if d in ChainsOf(tasks, specs, tasks[i].after) {
      var n :| n in tasks[i].after && IndexByName(tasks, n) >= 0 && d in specs[IndexByName(tasks, n)].names;
      var o := IndexByName(tasks, n);
      var m :| 0 <= m < |specs[o].names| && specs[o].names[m] == d;
      assert IsUnit(specs, o, m, d);
    }
  }

  lemma InOwnChain(specs: seq<ChainSpec>, i: nat, k: nat, j: nat, l: nat)
    requires UniqueUnits(specs) && ServicesAreNoUnits(specs)
    requires i < |specs| && k < |specs[i].names| && j < |specs| && l < |specs[j].names|
    ensures specs[j].names[l] !in specs[i].baseAfter && specs[j].names[l] !in specs[i].baseRequire
    ensures specs[j].names[l] in specs[i].names[..k] <==> i == j && l < k
    ensures specs[j].names[l] in Previous(specs[i].names, k) <==> i == j && l + 1 == k
  {
    var d := specs[j].names[l];
    assert IsUnit(specs, j, l, d);
    if d in specs[i].names[..k] {
      var m :| 0 <= m < k && specs[i].names[m] == d;
      assert IsUnit(specs, i, m, d);
    }
    if d in Previous(specs[i].names, k) {
      assert IsUnit(specs, i, k - 1, d);
    }
  }

  /**
  Unit k of task i comes after unit l of task j when it is the next of the same chain, when it is
  the main unit of the same chain and l an earlier unit, when task i names task j in After, or when
  both are main units and task i uses the volumes of task j.
  */
  ghost predicate ComesAfter(tasks: seq<Task>, specs: seq<ChainSpec>, i: nat, k: nat, j: nat, l: nat)
    requires |specs| == |tasks| && i < |specs| && j < |specs|
  {
    || (i == j && (l + 1 == k || (k + 1 == |specs[i].names| && l < k)))
    || tasks[j].name in tasks[i].after
    || (k + 1 == |specs[i].names| && l + 1 == |specs[j].names| && tasks[j].name in tasks[i].volumesFrom)
  }

  /** The exact start order: the After options say what ComesAfter says, no more and no less. */
  lemma StartOrder(tasks: seq<Task>, specs: seq<ChainSpec>, i: nat, k: nat, j: nat, l: nat)
    requires WellFormed(tasks, specs)
    requires i < |specs| && k < |specs[i].names| && j < |specs| && l < |specs[j].names|
    ensures specs[j].names[l] in UnitAfter(tasks, specs, i, k) <==> ComesAfter(tasks, specs, i, k, j, l)
  {
    InOwnChain(specs, i, k, j, l);
    InVolumes(tasks, specs, i, j, l);
    InAfterChains(tasks, specs, i, j, l);
  }

  // ----- No cycles -----

  function TotalLength(specs: seq<ChainSpec>): nat {
    if specs == [] then 0 else |specs[0].names| + TotalLength(specs[1..])
  }

  lemma {:induction false} LengthIsBounded(specs: seq<ChainSpec>, i: nat)
    requires i < |specs|
    ensures |specs[i].names| <= TotalLength(specs)
  {
    if i > 0 {
      LengthIsBounded(specs[1..], i - 1);
      assert specs[1..][i - 1] == specs[i];
    }
  }

  ghost function RankOf(rank: map<string, int>, name: string): int {
    if name in rank then rank[name] else 0
  }

  /** Units rank by their task first and by their place in the chain second; services rank lowest. */
  ghost function UnitRank(tasks: seq<Task>, specs: seq<ChainSpec>, rank: map<string, int>, x: string): int
    requires |specs| == |tasks|
  {
    if i, k :| IsUnit(specs, i, k, x) then PlaceRank(tasks, specs, rank, i, k) else 0
  }

  ghost function PlaceRank(tasks: seq<Task>, specs: seq<ChainSpec>, rank: map<string, int>, i: nat, k: nat): int
    requires |specs| == |tasks| && i < |tasks|
  {
    (RankOf(rank, tasks[i].name) + 1) * TotalLength(specs) + k + 1
  }

  lemma RankAtPlace(tasks: seq<Task>, specs: seq<ChainSpec>, rank: map<string, int>, i: nat, k: nat)
    requires WellFormed(tasks, specs) && i < |specs| && k < |specs[i].names|
    ensures UnitRank(tasks, specs, rank, specs[i].names[k]) == PlaceRank(tasks, specs, rank, i, k)
  {
    assert IsUnit(specs, i, k, specs[i].names[k]);
  }

  lemma RankScales(r: int, s: int, total: nat, k: nat, l: nat)
    requires s < r && l < total
    ensures (s + 1) * total + l + 1 < (r + 1) * total + k + 1
  {
    assert (s + 2) * total <= (r + 1) * total;
    assert (s + 2) * total == (s + 1) * total + total;
  }

  lemma TaskEdge(tasks: seq<Task>, i: nat, n: string)
    requires i < |tasks| && (n in tasks[i].after || n in tasks[i].volumesFrom)
    ensures (tasks[i].name, n) in TaskEdges(tasks)
  {
    assert tasks[i] in tasks;
  }

  lemma LinkDescends(tasks: seq<Task>, rank: map<string, int>, i: nat, n: string)
    requires Ranked(TaskEdges(tasks), rank) && i < |tasks| && (n in tasks[i].after || n in tasks[i].volumesFrom)
    ensures RankOf(rank, n) < RankOf(rank, tasks[i].name)
  {
    TaskEdge(tasks, i, n);
  }

  lemma AfterDescends(tasks: seq<Task>, specs: seq<ChainSpec>, rank: map<string, int>, i: nat, k: nat, j: nat, l: nat)
    requires |specs| == |tasks| && Ranked(TaskEdges(tasks), rank)
    requires i < |specs| && k < |specs[i].names| && j < |specs| && l < |specs[j].names|
    requires ComesAfter(tasks, specs, i, k, j, l)
    ensures PlaceRank(tasks, specs, rank, j, l) < PlaceRank(tasks, specs, rank, i, k)
  {
    hide Ranked, TaskEdges, RankOf;
    if tasks[j].name in tasks[i].after || tasks[j].name in tasks[i].volumesFrom {
      LinkDescends(tasks, rank, i, tasks[j].name);
      LengthIsBounded(specs, j);
      RankScales(RankOf(rank, tasks[i].name), RankOf(rank, tasks[j].name), TotalLength(specs), k, l);
    }
  }

  lemma PlaceRankIsPositive(tasks: seq<Task>, specs: seq<ChainSpec>, rank: map<string, int>, i: nat, k: nat)
    requires |specs| == |tasks| && i < |tasks| && forall x :: x in rank ==> rank[x] >= 0
    ensures PlaceRank(tasks, specs, rank, i, k) > 0
  {
    assert (RankOf(rank, tasks[i].name) + 1) * TotalLength(specs) >= 0;
  }

  lemma TaskRankGivesUnitRank(tasks: seq<Task>, specs: seq<ChainSpec>, rank: map<string, int>)
    requires WellFormed(tasks, specs) && Ranked(TaskEdges(tasks), rank) && forall x :: x in rank ==> rank[x] >= 0
    ensures Acyclic(UnitEdges(tasks, specs))
  {
    var edges := UnitEdges(tasks, specs);
    var unitRank := map x | x in Nodes(edges) :: UnitRank(tasks, specs, rank, x);
    forall a, b | (a, b) in edges ensures a in unitRank && b in unitRank && unitRank[b] < unitRank[a] {
      assert (a, b).0 == a && (a, b).1 == b;
      EdgeDescends(tasks, specs, rank, a, b);
    }
    RankedIsAcyclic(edges, unitRank);
  }

  lemma EdgeDescends(tasks: seq<Task>, specs: seq<ChainSpec>, rank: map<string, int>, a: string, b: string)
    requires WellFormed(tasks, specs) && Ranked(TaskEdges(tasks), rank) && forall x :: x in rank ==> rank[x] >= 0
    requires (a, b) in UnitEdges(tasks, specs)
    ensures UnitRank(tasks, specs, rank, b) < UnitRank(tasks, specs, rank, a)
  {
    hide Ranked, ComesAfter, PlaceRank;
    var i, k :| 0 <= i < |specs| && 0 <= k < |specs[i].names| && b in UnitAfter(tasks, specs, i, k) && a == specs[i].names[k];
    RankAtPlace(tasks, specs, rank, i, k);
    PlaceRankIsPositive(tasks, specs, rank, i, k);
    if j, l :| IsUnit(specs, j, l, b) {
      RankAtPlace(tasks, specs, rank, j, l);
      StartOrder(tasks, specs, i, k, j, l);
      AfterDescends(tasks, specs, rank, i, k, j, l);
    }
  }

  lemma TaskEdgeOrigin(tasks: seq<Task>, a: string, b: string) returns (i: nat)
    requires (a, b) in TaskEdges(tasks)
    ensures i < |tasks| && tasks[i].name == a && (b in tasks[i].after || b in tasks[i].volumesFrom)
  {
    var t :| t in tasks && t.name == a && (b in t.after || b in t.volumesFrom);
    i :| 0 <= i < |tasks| && tasks[i] == t;
  }

  lemma UnitEdge(tasks: seq<Task>, specs: seq<ChainSpec>, i: nat, k: nat, d: string)
    requires |specs| == |tasks| && i < |specs| && k < |specs[i].names| && d in UnitAfter(tasks, specs, i, k)
    ensures (specs[i].names[k], d) in UnitEdges(tasks, specs)
  {
  }

  lemma MainEdge(tasks: seq<Task>, specs: seq<ChainSpec>, i: nat, j: nat)
    requires WellFormed(tasks, specs) && i < |specs| && j < |specs|
    requires tasks[j].name in tasks[i].after || tasks[j].name in tasks[i].volumesFrom
    ensures (MainOf(specs, i), MainOf(specs, j)) in UnitEdges(tasks, specs)
  {
    hide UniqueUnits, ServicesAreNoUnits, VolumesAreMains, UnitAfter, UnitEdges;
    StartOrder(tasks, specs, i, |specs[i].names| - 1, j, |specs[j].names| - 1);
    UnitEdge(tasks, specs, i, |specs[i].names| - 1, MainOf(specs, j));
  }

  lemma UnitRankGivesTaskRank(tasks: seq<Task>, specs: seq<ChainSpec>, unitRank: map<string, int>)
    requires WellFormed(tasks, specs) && Ranked(UnitEdges(tasks, specs), unitRank)
    ensures Acyclic(TaskEdges(tasks))
  {
    var edges := TaskEdges(tasks);
    var rank := map x | x in Nodes(edges) ::
      var i := IndexByName(tasks, x); if i >= 0 then RankOf(unitRank, MainOf(specs, i)) else 0;
    forall a, b | (a, b) in edges ensures a in rank && b in rank && rank[b] < rank[a] {
      assert (a, b).0 == a && (a, b).1 == b;
      var i := TaskEdgeOrigin(tasks, a, b);
      assert LinksExist(tasks, tasks[i]);
      IndexIsUnique(tasks, i);
      var j := IndexByName(tasks, b);
      MainEdge(tasks, specs, i, j);
    }
    RankedIsAcyclic(edges, rank);
  }

  // ----- Timers -----

  /** The After options of the timer units. */
  ghost function TimerEdges(timers: seq<string>, after: seq<string>): Edges {
    set t, d | t in timers && d in after :: (t, d)
  }

  /** All After options of all units of a task group. */
  ghost function GroupEdges(job: string, tg: TaskGroup, sg: nat, options: ClusterOptions): Edges
    requires VolumesExist(tg.tasks)
  {
    UnitEdges(tg.tasks, SpecsOf(job, tg, sg, options))
    + TimerEdges(TimerNames(job, tg, tg.tasks, sg), Excluded(job, options.after))
  }

  lemma {:induction false} TimerOrigin(job: string, tg: TaskGroup, tasks: seq<Task>, sg: nat, n: string)
    requires n in TimerNames(job, tg, tasks, sg)
    ensures exists i :: 0 <= i < |tasks| && n == Deployment.IdOf(job, tg, tasks[i], UnitKind.Timer, sg).FullName()
  {
    var init := tasks[..|tasks| - 1];
    if n in TimerNames(job, tg, init, sg) {
      TimerOrigin(job, tg, init, sg, n);
      var i :| 0 <= i < |init| && n == Deployment.IdOf(job, tg, init[i], UnitKind.Timer, sg).FullName();
      assert tasks[i] == init[i];
    }
  }

  /** What a unit comes after is in its base or another unit. */
  lemma AfterWhat(tasks: seq<Task>, specs: seq<ChainSpec>, i: nat, k: nat, d: string)
    requires WellFormed(tasks, specs) && i < |specs| && k < |specs[i].names| && d in UnitAfter(tasks, specs, i, k)
    ensures d in specs[i].baseAfter || exists j, l :: IsUnit(specs, j, l, d)
  {
    InChainsOf(tasks, specs, tasks[i].after, d);
    hide UniqueUnits, ServicesAreNoUnits, ChainsOf;
    if m :| 0 <= m < |specs[i].names| && specs[i].names[m] == d {
      assert IsUnit(specs, i, m, d);
    } else if d in specs[i].volumes {
      var v :| 0 <= v < |specs[i].volumes| && specs[i].volumes[v] == d;
      assert IsMainOf(tasks, specs, tasks[i].volumesFrom[v], d);
      var o := IndexByName(tasks, tasks[i].volumesFrom[v]);
      assert IsUnit(specs, o, |specs[o].names| - 1, d);
    } else if d in ChainsOf(tasks, specs, tasks[i].after) {
      var n :| n in tasks[i].after && IndexByName(tasks, n) >= 0 && d in specs[IndexByName(tasks, n)].names;
      var o := IndexByName(tasks, n);
      var m :| 0 <= m < |specs[o].names| && specs[o].names[m] == d;
      assert IsUnit(specs, o, m, d);
    }
  }

  /** No unit comes after a timer of the same group. */
  lemma NothingComesAfterTimers(job: string, tg: TaskGroup, sg: nat, options: ClusterOptions, a: string, t: string)
    requires ValidJobName(job) && tg.Valid() && 1 <= sg <= tg.count && VolumesExist(tg.tasks)
    requires t in TimerNames(job, tg, tg.tasks, sg)
    ensures (a, t) !in GroupEdges(job, tg, sg, options)
  {
    hide UnitEdges, TimerNames, SpecsOf, IsUnitForJob, UnitId.FullName, UnitId.Valid, TaskGroup.Valid, Excluded;
    TimerOrigin(job, tg, tg.tasks, sg, t);
    var x :| 0 <= x < |tg.tasks| && t == Deployment.IdOf(job, tg, tg.tasks[x], UnitKind.Timer, sg).FullName();
    var u := Deployment.IdOf(job, tg, tg.tasks[x], UnitKind.Timer, sg);
    TimerIsValid(job, tg, sg, x);
    SpecsHaveMain(job, tg, sg, options);
    RecognisedByItsJob(u, job);
    if (a, t) in UnitEdges(tg.tasks, SpecsOf(job, tg, sg, options)) {
      NoUnitComesAfterTimer(job, tg, sg, options, a, u);
    }
  }

  lemma TimerIsValid(job: string, tg: TaskGroup, sg: nat, x: nat)
    requires ValidJobName(job) && tg.Valid() && 1 <= sg <= tg.count && x < |tg.tasks|
    ensures Deployment.IdOf(job, tg, tg.tasks[x], UnitKind.Timer, sg).Valid()
  {
  }

  lemma NoUnitComesAfterTimer(job: string, tg: TaskGroup, sg: nat, options: ClusterOptions, a: string, u: UnitId)
    requires ValidJobName(job) && tg.Valid() && 1 <= sg <= tg.count && VolumesExist(tg.tasks)
    requires u.Valid() && u.kind.Timer? && u.job == job
    ensures (a, u.FullName()) !in UnitEdges(tg.tasks, SpecsOf(job, tg, sg, options))
  {
    hide SpecsOf, UnitId.FullName, UnitId.Valid, UniqueUnits, ServicesAreNoUnits, VolumesAreMains, LinksExist, UnitAfter, TaskGroup.Valid;
    SpecsAreWellFormed(job, tg, sg, options);
    var specs, t := SpecsOf(job, tg, sg, options), u.FullName();
    if (a, t) in UnitEdges(tg.tasks, specs) {
      var i, k :| 0 <= i < |specs| && 0 <= k < |specs[i].names| && t in UnitAfter(tg.tasks, specs, i, k) && a == specs[i].names[k];
      AfterWhat(tg.tasks, specs, i, k, t);
      BaseIsNoUnit(job, tg, sg, options, i, u);
      var j, l :| IsUnit(specs, j, l, t);
      TimerIsNoMainUnit(job, tg, sg, options, u, j, l);
    }
  }

  lemma TimerIsNoMainUnit(job: string, tg: TaskGroup, sg: nat, options: ClusterOptions, u: UnitId, j: nat, l: nat)
    requires ValidJobName(job) && tg.Valid() && 1 <= sg <= tg.count && VolumesExist(tg.tasks)
    requires u.Valid() && u.kind.Timer? && j < |tg.tasks| && l < |SpecsOf(job, tg, sg, options)[j].names|
    ensures SpecsOf(job, tg, sg, options)[j].names[l] != u.FullName()
  {
    SpecNames(job, tg, sg, options, j, l);
    var kinds := Deployment.MainChainKinds(tg.tasks[j]);
    var v := Deployment.IdOf(job, tg, tg.tasks[j], kinds[l], sg);
    Deployment.ProxyKindsDistinct(tg.tasks[j].tcpLinks, 0);
    Deployment.VolumeKindsDistinct(tg.tasks[j].volumes, 0);
    assert kinds[l] in kinds && !kinds[l].Timer?;
    if v.FullName() == u.FullName() { FullNameInjective(u, v); }
  }

  lemma UnitsAcyclicIffTasksAre(job: string, tg: TaskGroup, sg: nat, options: ClusterOptions)
    requires ValidJobName(job) && tg.Valid() && 1 <= sg <= tg.count
    ensures VolumesExist(tg.tasks)
    ensures Acyclic(UnitEdges(tg.tasks, SpecsOf(job, tg, sg, options))) <==> Acyclic(TaskEdges(tg.tasks))
  {
    SpecsAreWellFormed(job, tg, sg, options);
    hide WellFormed, SpecsOf, Acyclic;
    var specs := SpecsOf(job, tg, sg, options);
    if Acyclic(TaskEdges(tg.tasks)) {
      var rank := AcyclicHasRank(TaskEdges(tg.tasks));
      TaskRankGivesUnitRank(tg.tasks, specs, rank);
    }
    if Acyclic(UnitEdges(tg.tasks, specs)) {
      var rank := AcyclicHasRank(UnitEdges(tg.tasks, specs));
      UnitRankGivesTaskRank(tg.tasks, specs, rank);
    }
  }

  /**
  systemd can start the units of a task group in order exactly when the tasks can be ordered, whatever
  units the cluster puts before all others.
  */
  lemma AcyclicIffTasksAre(job: string, tg: TaskGroup, sg: nat, options: ClusterOptions)
    requires ValidJobName(job) && tg.Valid() && 1 <= sg <= tg.count
    ensures VolumesExist(tg.tasks)
    ensures Acyclic(GroupEdges(job, tg, sg, options)) <==> Acyclic(TaskEdges(tg.tasks))
  {
    UnitsAcyclicIffTasksAre(job, tg, sg, options);
    var units := UnitEdges(tg.tasks, SpecsOf(job, tg, sg, options));
    var names := TimerNames(job, tg, tg.tasks, sg);
    var timers := TimerEdges(names, Excluded(job, options.after));
    forall a, t | t in names ensures (a, t) !in units + timers { NothingComesAfterTimers(job, tg, sg, options, a, t); }
    forall e | e in timers ensures e.0 in names { }
    hide UnitEdges, TimerEdges, SpecsOf, Acyclic, Excluded, TimerNames;
    SourcesKeepAcyclic(units, timers, set t | t in names);
  }

  /** Each unit of a task's main chain comes after each unit of the main chain of each task it names in After. */
  lemma ChainComesAfterChain(job: string, tg: TaskGroup, sg: nat, options: ClusterOptions, i: nat, j: nat)
    requires ValidJobName(job) && tg.Valid() && 1 <= sg <= tg.count
    requires i < |tg.tasks| && j < |tg.tasks| && tg.tasks[j].name in tg.tasks[i].after
    ensures VolumesExist(tg.tasks)
    ensures var specs := SpecsOf(job, tg, sg, options);
            forall k, l :: 0 <= k < |specs[i].names| && 0 <= l < |specs[j].names| ==>
              specs[j].names[l] in UnitAfter(tg.tasks, specs, i, k)
  {
    SpecsAreWellFormed(job, tg, sg, options);
    var specs := SpecsOf(job, tg, sg, options);
    forall k, l | 0 <= k < |specs[i].names| && 0 <= l < |specs[j].names|
      ensures specs[j].names[l] in UnitAfter(tg.tasks, specs, i, k)
    {
      StartOrder(tg.tasks, specs, i, k, j, l);
    }
  }

  // ----- What comes from outside the group -----

  /**
  Besides units of the group, a unit comes after exactly the cluster-wide units that are not of the
  job, docker, and weave if its task is on the weave network.
  */
  lemma AfterOutside(job: string, tg: TaskGroup, sg: nat, options: ClusterOptions, i: nat, k: nat, d: string)
    requires ValidJobName(job) && tg.Valid() && 1 <= sg <= tg.count && VolumesExist(tg.tasks)
    requires i < |tg.tasks| && k < |SpecsOf(job, tg, sg, options)[i].names|
    requires forall j, l :: !IsUnit(SpecsOf(job, tg, sg, options), j, l, d)
    ensures d in UnitAfter(tg.tasks, SpecsOf(job, tg, sg, options), i, k) <==>
              || (d in options.after && !IsUnitForJob(d, job))
              || d == "docker.service" || (d == "weave.service" && tg.tasks[i].network == "weave")
  {
    SpecsAreWellFormed(job, tg, sg, options);
    var specs := SpecsOf(job, tg, sg, options);
    assert specs[i].baseAfter == Excluded(job, options.after) + Services(tg.tasks[i]);
    hide SpecsOf, IsUnitForJob, UniqueUnits, ServicesAreNoUnits, VolumesAreMains;
    if d in UnitAfter(tg.tasks, specs, i, k) { AfterWhat(tg.tasks, specs, i, k, d); }
    assert d in specs[i].baseAfter ==> d in UnitAfter(tg.tasks, specs, i, k);
  }

  // ----- Requirements -----

  /**
  Unit k of task i requires unit l of task j when they are neighbours in a chain, when k is the first
  and l the last, when k is the main unit and l an earlier one, when both are main units and task i
  uses the volumes of task j, or when the group restarts as one.
  */
  ghost predicate Requires(tasks: seq<Task>, specs: seq<ChainSpec>, restartAll: bool, i: nat, k: nat, j: nat, l: nat)
    requires |specs| == |tasks| && i < |specs| && j < |specs|
  {
    || (i == j && (l == k + 1 || l + 1 == k || (k == 0 && 1 < |specs[i].names| == l + 1) || (k + 1 == |specs[i].names| && l < k)))
    || (k + 1 == |specs[i].names| && l + 1 == |specs[j].names| && tasks[j].name in tasks[i].volumesFrom)
    || (restartAll && i != j)
  }

  /** The exact requirements between units: what Requires says, no more and no less. */
  lemma RequireOrder(tasks: seq<Task>, specs: seq<ChainSpec>, restartAll: bool, i: nat, k: nat, j: nat, l: nat)
    requires WellFormed(tasks, specs)
    requires i < |specs| && k < |specs[i].names| && j < |specs| && l < |specs[j].names|
    ensures specs[j].names[l] in UnitRequire(specs, restartAll, i, k) <==> Requires(tasks, specs, restartAll, i, k, j, l)
  {
    var d := specs[j].names[l];
    InOwnChain(specs, i, k, j, l);
    InVolumes(tasks, specs, i, j, l);
    InLinkRequires(specs, i, k, j, l);
    InOtherChainsIff(specs, i, j, l, |specs|);
    hide WellFormed, OtherChains, LinkRequires;
  }

  lemma InLinkRequires(specs: seq<ChainSpec>, i: nat, k: nat, j: nat, l: nat)
    requires UniqueUnits(specs) && i < |specs| && k < |specs[i].names| && j < |specs| && l < |specs[j].names|
    ensures specs[j].names[l] in LinkRequires(specs[i].names, k) <==>
              i == j && (l == k + 1 || l + 1 == k || (k == 0 && 1 < |specs[i].names| == l + 1))
  {
    var d, names := specs[j].names[l], specs[i].names;
    forall m | 0 <= m < |names| ensures names[m] == d <==> i == j && l == m {
      if names[m] == d { UniquePlace(specs, i, m, j, l); }
    }
    hide UniqueUnits;
  }

  lemma {:induction false} InOtherChainsIff(specs: seq<ChainSpec>, i: nat, j: nat, l: nat, n: nat)
    requires UniqueUnits(specs) && n <= |specs| && j < |specs| && l < |specs[j].names|
    ensures specs[j].names[l] in OtherChains(specs, i, n) <==> j < n && i != j
  {
    if n > 0 {
      InOtherChainsIff(specs, i, j, l, n - 1);
      if specs[j].names[l] in specs[n - 1].names {
        var m :| 0 <= m < |specs[n - 1].names| && specs[n - 1].names[m] == specs[j].names[l];
        UniquePlace(specs, n - 1, m, j, l);
      }
    }
  }

  /** What units of the group require outside of it: the cluster-wide units that are not of the job, docker, and weave on its network. */
  lemma RequireOutside(job: string, tg: TaskGroup, sg: nat, options: ClusterOptions, i: nat, d: string)
    requires VolumesExist(tg.tasks) && i < |tg.tasks|
    ensures d in SpecsOf(job, tg, sg, options)[i].baseRequire <==>
              || (d in options.requires_ && !IsUnitForJob(d, job))
              || d == "docker.service" || (d == "weave.service" && tg.tasks[i].network == "weave")
  {
    assert SpecsOf(job, tg, sg, options)[i].baseRequire == Excluded(job, options.requires_) + Services(tg.tasks[i]);
    hide SpecsOf, IsUnitForJob;
  }

  lemma RequireEdge(specs: seq<ChainSpec>, restartAll: bool, i: nat, k: nat, d: string)
    requires i < |specs| && k < |specs[i].names| && d in UnitRequire(specs, restartAll, i, k)
    ensures Reaches(RequireEdges(specs, restartAll), specs[i].names[k], d)
  {
    EdgeReaches(RequireEdges(specs, restartAll), specs[i].names[k], d);
  }

  lemma {:induction false} ForwardRequires(specs: seq<ChainSpec>, restartAll: bool, i: nat, k: nat, l: nat)
    requires i < |specs| && k <= l < |specs[i].names|
    ensures Reaches(RequireEdges(specs, restartAll), specs[i].names[k], specs[i].names[l])
    ensures Reaches(RequireEdges(specs, restartAll), specs[i].names[l], specs[i].names[k])
    decreases l - k
  {
    var edges, names := RequireEdges(specs, restartAll), specs[i].names;
    if k == l {
      ReachesSelf(edges, names[k]);
    } else {
      ForwardRequires(specs, restartAll, i, k, l - 1);
      assert names[l] in LinkRequires(names, l - 1);
      RequireEdge(specs, restartAll, i, l - 1, names[l]);
      ReachesTransitive(edges, names[k], names[l - 1], names[l]);
      assert names[l - 1] in LinkRequires(names, l);
      RequireEdge(specs, restartAll, i, l, names[l - 1]);
      ReachesTransitive(edges, names[l], names[l - 1], names[k]);
    }
  }

  /** Through its requirements every unit of a chain depends on every other unit of the chain. */
  lemma ChainHoldsTogether(specs: seq<ChainSpec>, restartAll: bool, i: nat, k: nat, l: nat)
    requires i < |specs| && k < |specs[i].names| && l < |specs[i].names|
    ensures Reaches(RequireEdges(specs, restartAll), specs[i].names[k], specs[i].names[l])
  {
    if k <= l { ForwardRequires(specs, restartAll, i, k, l); } else { ForwardRequires(specs, restartAll, i, l, k); }
  }

  lemma {:induction false} InOtherChains(specs: seq<ChainSpec>, i: nat, j: nat, l: nat, n: nat)
    requires j < n <= |specs| && i != j && l < |specs[j].names|
    ensures specs[j].names[l] in OtherChains(specs, i, n)
  {
    if j < n - 1 { InOtherChains(specs, i, j, l, n - 1); }
  }

  /** With restart policy "all", every unit requires each unit of every other main chain directly. */
  lemma RestartAllBindsChains(specs: seq<ChainSpec>, i: nat, k: nat, j: nat, l: nat)
    requires i < |specs| && k < |specs[i].names| && j < |specs| && l < |specs[j].names| && i != j
    ensures specs[j].names[l] in UnitRequire(specs, true, i, k)
  {
    InOtherChains(specs, i, j, l, |specs|);
  }
}
