/**
The fleet units of a task group and the order systemd starts them in: chains of units per task,
linked inside the chain, bound together on restart, and ordered by After across tasks.
*/
module FleetUnits {
  import opened Wrappers
  import opened UnitNames
  import opened Jobs
  import Deployment

  /** A unit under construction. `require` and `after` are the options of those names. */
  class Unit {
    const fullName: string
    var require: seq<string>
    var after: seq<string>
    var machineOf: seq<string>

    constructor (fullName: string, require: seq<string>, after: seq<string>)
      ensures this.fullName == fullName && this.require == require && this.after == after && machineOf == []
    {
      this.fullName := fullName;
      this.require, this.after, machineOf := require, after, [];
    }
  }

  type UnitChain = seq<Unit>

  function NamesOf(chain: UnitChain): (names: seq<string>)
    ensures |names| == |chain| && forall k :: 0 <= k < |chain| ==> names[k] == chain[k].fullName
  {
    seq(|chain|, k requires 0 <= k < |chain| => chain[k].fullName)
  }

  ghost predicate DistinctUnits(chain: UnitChain) {
    forall j, k :: 0 <= j < k < |chain| ==> chain[j] != chain[k]
  }

  // ----- Operations on chains -----

  /** What linking adds to the requirements of place k: its neighbours, and for the first the last. */
  function LinkRequires(names: seq<string>, k: nat): seq<string>
    requires k < |names|
  {
    if |names| == 1 then []
    else (if k + 1 < |names| then [names[k + 1]] else []) + [if k > 0 then names[k - 1] else names[|names| - 1]]
  }

  function Previous(names: seq<string>, k: nat): seq<string>
    requires k < |names|
  {
    if k > 0 then [names[k - 1]] else []
  }

  /** Unit u had these options before it was linked as unit k of a chain with these names. */
  ghost predicate IsLinked(u: Unit, names: seq<string>, k: nat, require: seq<string>, after: seq<string>, machineOf: seq<string>)
    requires k < |names|
    reads u
  {
    && u.require == require + LinkRequires(names, k)
    && u.after == after + Previous(names, k)
    && u.machineOf == machineOf + Previous(names, k)
  }

  method Link(chain: UnitChain)
    requires DistinctUnits(chain)
    modifies chain
    ensures forall k :: 0 <= k < |chain| ==>
              IsLinked(chain[k], NamesOf(chain), k, old(chain[k].require), old(chain[k].after), old(chain[k].machineOf))
  {
    if |chain| > 1 {
      LinkAll(chain);
    }
  }

  method LinkAll(chain: UnitChain)
    requires DistinctUnits(chain) && |chain| > 1
    modifies chain
    ensures forall k :: 0 <= k < |chain| ==>
              IsLinked(chain[k], NamesOf(chain), k, old(chain[k].require), old(chain[k].after), old(chain[k].machineOf))
  {
    hide IsLinked;
    for i := 0 to |chain|
      invariant forall k :: 0 <= k < i ==>
                  IsLinked(chain[k], NamesOf(chain), k, old(chain[k].require), old(chain[k].after), old(chain[k].machineOf))
      invariant forall k :: i <= k < |chain| ==>
                  && chain[k].require == old(chain[k].require)
                  && chain[k].after == old(chain[k].after) && chain[k].machineOf == old(chain[k].machineOf)
    {
      LinkUnit(chain, i);
    }
  }

  method LinkUnit(chain: UnitChain, i: nat)
    requires |chain| > 1 && i < |chain|
    modifies chain[i]
    ensures IsLinked(chain[i], NamesOf(chain), i, old(chain[i].require), old(chain[i].after), old(chain[i].machineOf))
  {
    var u := chain[i];
    if i + 1 < |chain| {
      u.require := u.require + [chain[i + 1].fullName];
    }
    if i > 0 {
      u.require := u.require + [chain[i - 1].fullName];
      u.after := u.after + [chain[i - 1].fullName];
      u.machineOf := u.machineOf + [chain[i - 1].fullName];
    } else {
      u.require := u.require + [chain[|chain| - 1].fullName];
    }
  }

  /** Makes every unit of the chain require every unit of the other chain. */
  method BindRestartTo(chain: UnitChain, other: UnitChain)
    requires DistinctUnits(chain)
    modifies chain`require
    ensures forall k :: 0 <= k < |chain| ==> chain[k].require == old(chain[k].require) + NamesOf(other)
  {
    for i := 0 to |chain|
      invariant forall k :: 0 <= k < i ==> chain[k].require == old(chain[k].require) + NamesOf(other)
      invariant forall k :: i <= k < |chain| ==> chain[k].require == old(chain[k].require)
    {
      for j := 0 to |other|
        invariant chain[i].require == old(chain[i].require) + NamesOf(other)[..j]
        invariant forall k :: 0 <= k < i ==> chain[k].require == old(chain[k].require) + NamesOf(other)
        invariant forall k :: i < k < |chain| ==> chain[k].require == old(chain[k].require)
      {
        chain[i].require := chain[i].require + [other[j].fullName];
      }
      assert NamesOf(other)[..|other|] == NamesOf(other);
    }
  }

  /** Orders every unit of the chain after every unit of the other chain. */
  method After(chain: UnitChain, other: UnitChain)
    requires DistinctUnits(chain)
    modifies chain`after
    ensures forall k :: 0 <= k < |chain| ==> chain[k].after == old(chain[k].after) + NamesOf(other)
  {
    for i := 0 to |chain|
      invariant forall k :: 0 <= k < i ==> chain[k].after == old(chain[k].after) + NamesOf(other)
      invariant forall k :: i <= k < |chain| ==> chain[k].after == old(chain[k].after)
    {
      for j := 0 to |other|
        invariant chain[i].after == old(chain[i].after) + NamesOf(other)[..j]
        invariant forall k :: 0 <= k < i ==> chain[k].after == old(chain[k].after) + NamesOf(other)
        invariant forall k :: i < k < |chain| ==> chain[k].after == old(chain[k].after)
      {
        chain[i].after := chain[i].after + [other[j].fullName];
      }
      assert NamesOf(other)[..|other|] == NamesOf(other);
    }
  }

  // ----- What the units of a list of chains come to -----

  /**
  A main chain to be made: the full names of its units, the main unit last; what all of them
  require and come after; and the main units whose volumes the main unit uses.
  */
  datatype ChainSpec = ChainSpec(names: seq<string>, baseRequire: seq<string>, baseAfter: seq<string>, volumes: seq<string>) {
    /** What the unit at place k has on top of a base list before any linking. */
    function Created(base: seq<string>, k: nat): seq<string>
      requires k < |names|
    {
      if k + 1 == |names| then base + names[..k] + volumes else base
    }

    function LinkedAfter(k: nat): seq<string>
      requires k < |names|
    {
      Created(baseAfter, k) + Previous(names, k)
    }

    function LinkedRequire(k: nat): seq<string>
      requires k < |names|
    {
      Created(baseRequire, k) + LinkRequires(names, k)
    }
  }

  /** The names of the chains of all tasks called `names`, in that order. */
  function ChainsOf(tasks: seq<Task>, specs: seq<ChainSpec>, names: seq<string>): seq<string>
    requires |specs| == |tasks|
  {
    if names == [] then []
    else
      var o := IndexByName(tasks, names[|names| - 1]);
      ChainsOf(tasks, specs, names[..|names| - 1]) + if o < 0 then [] else specs[o].names
  }

  lemma NoChainsOf(tasks: seq<Task>, specs: seq<ChainSpec>)
    requires |specs| == |tasks|
    ensures ChainsOf(tasks, specs, []) == []
  {
  }

  lemma MoreChainsOf(tasks: seq<Task>, specs: seq<ChainSpec>, names: seq<string>, l: nat)
    requires |specs| == |tasks| && l < |names|
    ensures var o := IndexByName(tasks, names[l]);
            ChainsOf(tasks, specs, names[..l + 1]) == ChainsOf(tasks, specs, names[..l]) + if o < 0 then [] else specs[o].names
  {
    assert names[..l + 1][..l] == names[..l];
  }

  /** The names of the first n chains, without chain i. */
  function OtherChains(specs: seq<ChainSpec>, i: nat, n: nat): seq<string>
    requires n <= |specs|
  {
    if n == 0 then []
    else OtherChains(specs, i, n - 1) + if i == n - 1 then [] else specs[n - 1].names
  }

  // ----- Creating the units -----

  datatype UnitError = TaskNotFound(name: string)

  ghost function AllUnits(mains: seq<UnitChain>): set<Unit> {
    set i, u | 0 <= i < |mains| && u in mains[i] :: u
  }

  /** The chains have the names of the specs, and all their units are different objects. */
  ghost predicate AreChains(mains: seq<UnitChain>, specs: seq<ChainSpec>) {
    && |mains| == |specs|
    && (forall i :: 0 <= i < |mains| ==> NamesOf(mains[i]) == specs[i].names && DistinctUnits(mains[i]))
    && (forall i, j, u :: 0 <= i < |mains| && 0 <= j < |mains| && u in mains[i] && u in mains[j] ==> i == j)
  }

  ghost predicate HasOptions(u: Unit, require: seq<string>, after: seq<string>)
    reads u
  {
    u.require == require && u.after == after
  }

  /** The units of the chain as they come out of Link. */
  ghost predicate IsLinkedChain(chain: UnitChain, spec: ChainSpec)
    requires |chain| == |spec.names|
    reads chain
  {
    forall k :: 0 <= k < |chain| ==> HasOptions(chain[k], spec.LinkedRequire(k), spec.LinkedAfter(k))
  }

  method CreateMainChain(spec: ChainSpec) returns (chain: UnitChain)
    requires |spec.names| > 0
    ensures fresh(chain) && DistinctUnits(chain) && NamesOf(chain) == spec.names
    ensures forall k :: 0 <= k < |chain| ==> HasOptions(chain[k], spec.Created(spec.baseRequire, k), spec.Created(spec.baseAfter, k))
  {
    chain := [];
    var n := |spec.names| - 1;
    for k := 0 to n
      invariant |chain| == k && fresh(chain) && DistinctUnits(chain)
      invariant forall l :: 0 <= l < k ==> chain[l].fullName == spec.names[l]
      invariant forall l :: 0 <= l < k ==> HasOptions(chain[l], spec.baseRequire, spec.baseAfter)
    {
      var u := new Unit(spec.names[k], spec.baseRequire, spec.baseAfter);
      chain := chain + [u];
    }
    var main := new Unit(spec.names[n], spec.baseRequire, spec.baseAfter);
    var sidekicks := NamesOf(chain);
    assert sidekicks == spec.names[..n];
    main.require := main.require + sidekicks;
    main.after := main.after + sidekicks;
    for l := 0 to |spec.volumes|
      invariant main.require == spec.baseRequire + sidekicks + spec.volumes[..l]
      invariant main.after == spec.baseAfter + sidekicks + spec.volumes[..l]
      modifies main
    {
      main.require := main.require + [spec.volumes[l]];
      main.after := main.after + [spec.volumes[l]];
    }
    assert spec.volumes[..|spec.volumes|] == spec.volumes;
    chain := chain + [main];
  }

  method CreateLinkedChain(spec: ChainSpec) returns (chain: UnitChain)
    requires |spec.names| > 0
    ensures fresh(chain) && DistinctUnits(chain) && NamesOf(chain) == spec.names && IsLinkedChain(chain, spec)
  {
    chain := CreateMainChain(spec);
    Link(chain);
  }

  lemma AddChain(mains: seq<UnitChain>, specs: seq<ChainSpec>, chain: UnitChain)
    requires |mains| < |specs| && AreChains(mains, specs[..|mains|])
    requires NamesOf(chain) == specs[|mains|].names && DistinctUnits(chain)
    requires forall j, u :: 0 <= j < |mains| && u in mains[j] ==> u !in chain
    ensures AreChains(mains + [chain], specs[..|mains| + 1])
  {
  }

  lemma NoChains()
    ensures AreChains([], [])
  {
  }

  /** Creates and links the main chains of all tasks. */
  method CreateChains(specs: seq<ChainSpec>) returns (mains: seq<UnitChain>)
    requires forall i :: 0 <= i < |specs| ==> |specs[i].names| > 0
    ensures AreChains(mains, specs) && forall i :: 0 <= i < |mains| ==> fresh(mains[i]) && IsLinkedChain(mains[i], specs[i])
  {
    hide AreChains, IsLinkedChain;
    mains := [];
    NoChains();
    for i := 0 to |specs|
      invariant |mains| == i && AreChains(mains, specs[..i])
      invariant forall j :: 0 <= j < i ==> |mains[j]| == |specs[j].names|
      invariant forall j :: 0 <= j < i ==> fresh(mains[j]) && IsLinkedChain(mains[j], specs[j])
    {
      var chain := CreateLinkedChain(specs[i]);
      assert forall j :: 0 <= j < i ==> fresh(mains[j]);
      AddChain(mains, specs, chain);
      mains := mains + [chain];
    }
    assert specs[..|specs|] == specs;
  }

  /** Restart policy "all": every main chain requires every other main chain. */
  method BindAll(mains: seq<UnitChain>, ghost specs: seq<ChainSpec>)
    requires AreChains(mains, specs)
    modifies AllUnits(mains)`require
    ensures forall i, k :: 0 <= i < |mains| && 0 <= k < |mains[i]| ==>
              mains[i][k].require == old(mains[i][k].require) + OtherChains(specs, i, |specs|)
  {
    hide OtherChains, NamesOf;
    for i := 0 to |mains|
      invariant forall a, k :: 0 <= a < i && 0 <= k < |mains[a]| ==>
                  mains[a][k].require == old(mains[a][k].require) + OtherChains(specs, a, |specs|)
      invariant forall a, k :: i <= a < |mains| && 0 <= k < |mains[a]| ==> mains[a][k].require == old(mains[a][k].require)
    {
      assert forall u :: u in mains[i] ==> u in AllUnits(mains);
      BindOne(mains, specs, i);
    }
  }

  method BindOne(mains: seq<UnitChain>, ghost specs: seq<ChainSpec>, i: nat)
    requires AreChains(mains, specs) && i < |mains|
    modifies mains[i]`require
    ensures forall k :: 0 <= k < |mains[i]| ==>
              mains[i][k].require == old(mains[i][k].require) + OtherChains(specs, i, |specs|)
  {
    hide NamesOf, OtherChains;
    NoOtherChain(specs, i);
    for j := 0 to |mains|
      invariant forall k :: 0 <= k < |mains[i]| ==>
                  mains[i][k].require == old(mains[i][k].require) + OtherChains(specs, i, j)
    {
      NextOtherChain(specs, i, j);
      if i != j {
        BindRestartTo(mains[i], mains[j]);
      }
    }
  }

  lemma NoOtherChain(specs: seq<ChainSpec>, i: nat)
    ensures OtherChains(specs, i, 0) == []
  {
  }

  lemma NextOtherChain(specs: seq<ChainSpec>, i: nat, j: nat)
    requires j < |specs|
    ensures OtherChains(specs, i, j + 1) == OtherChains(specs, i, j) + if i == j then [] else specs[j].names
  {
  }

  /** The After links of all tasks. */
  method OrderAll(tasks: seq<Task>, mains: seq<UnitChain>, ghost specs: seq<ChainSpec>) returns (error: Option<UnitError>)
    requires AreChains(mains, specs) && |tasks| == |specs|
    modifies AllUnits(mains)`after
    ensures error == None ==> forall i, k :: 0 <= i < |mains| && 0 <= k < |mains[i]| ==>
              mains[i][k].after == old(mains[i][k].after) + ChainsOf(tasks, specs, tasks[i].after)
    ensures error == None <==> forall t, n :: t in tasks && n in t.after ==> HasTask(tasks, n)
  {
    hide ChainsOf, HasTask, IndexByName, NamesOf;
    for i := 0 to |mains|
      invariant forall a, k :: 0 <= a < i && 0 <= k < |mains[a]| ==>
                  mains[a][k].after == old(mains[a][k].after) + ChainsOf(tasks, specs, tasks[a].after)
      invariant forall a, k :: i <= a < |mains| && 0 <= k < |mains[a]| ==> mains[a][k].after == old(mains[a][k].after)
      invariant forall t, n :: t in tasks[..i] && n in t.after ==> HasTask(tasks, n)
    {
      assert tasks[i] in tasks && tasks[..i + 1] == tasks[..i] + [tasks[i]];
      assert forall u :: u in mains[i] ==> u in AllUnits(mains);
      error := OrderOne(tasks, mains, specs, i);
      if error.Some? { return; }
    }
    assert tasks[..|tasks|] == tasks;
    error := None;
  }

  method OrderOne(tasks: seq<Task>, mains: seq<UnitChain>, ghost specs: seq<ChainSpec>, i: nat) returns (error: Option<UnitError>)
    requires AreChains(mains, specs) && |tasks| == |specs| && i < |mains|
    modifies mains[i]`after
    ensures error == None ==> forall k :: 0 <= k < |mains[i]| ==>
              mains[i][k].after == old(mains[i][k].after) + ChainsOf(tasks, specs, tasks[i].after)
    ensures error == None <==> forall n :: n in tasks[i].after ==> HasTask(tasks, n)
  {
    hide ChainsOf, NamesOf, HasTask;
    var names := tasks[i].after;
    assert ChainsOf(tasks, specs, names[..0]) == [] by { NoChainsOf(tasks, specs); }
    for l := 0 to |names|
      invariant forall k :: 0 <= k < |mains[i]| ==>
                  mains[i][k].after == old(mains[i][k].after) + ChainsOf(tasks, specs, names[..l])
      invariant forall n :: n in names[..l] ==> HasTask(tasks, n)
    {
      assert names[..l + 1] == names[..l] + [names[l]];
      MoreChainsOf(tasks, specs, names, l);
      var o := IndexByName(tasks, names[l]);
      if o < 0 {
        return Some(TaskNotFound(names[l]));
      }
      After(mains[i], mains[o]);
    }
    assert names[..|names|] == names;
    error := None;
  }

  // ----- The units of a task group -----

  ghost predicate VolumesExist(tasks: seq<Task>) {
    forall t, n :: t in tasks && n in t.volumesFrom ==> HasTask(tasks, n)
  }

  /** Units that the cluster puts before or behind every unit of every job. */
  datatype ClusterOptions = ClusterOptions(after: seq<string>, requires_: seq<string>)

  /** The names without those of units of the job. */
  function Excluded(job: string, names: seq<string>): (r: seq<string>)
    ensures forall n :: n in r <==> n in names && !IsUnitForJob(n, job)
  {
    if names == [] then []
    else
      var last := names[|names| - 1];
      Excluded(job, names[..|names| - 1]) + if IsUnitForJob(last, job) then [] else [last]
  }

  method ExcludeUnitsOfJob(job: string, names: seq<string>) returns (result: seq<string>)
    ensures result == Excluded(job, names)
  {
    hide IsUnitForJob;
    result := [];
    for i := 0 to |names|
      invariant result == Excluded(job, names[..i])
    {
      assert names[..i + 1][..i] == names[..i];
      if !IsUnitForJob(names[i], job) {
        result := result + [names[i]];
      }
    }
    assert names[..|names|] == names;
  }

  /** The services that every unit of a task depends on. */
  function Services(t: Task): seq<string> {
    ["docker.service"] + if t.network == "weave" then ["weave.service"] else []
  }

  function TimerNames(job: string, tg: TaskGroup, tasks: seq<Task>, sg: nat): seq<string> {
    if tasks == [] then []
    else
      var last := tasks[|tasks| - 1];
      TimerNames(job, tg, tasks[..|tasks| - 1], sg)
      + if last.timer != "" then [Deployment.IdOf(job, tg, last, UnitKind.Timer, sg).FullName()] else []
  }

  function MainName(job: string, tg: TaskGroup, t: Task, sg: nat): string {
    Deployment.IdOf(job, tg, t, UnitKind.Main, sg).FullName()
  }

  /** The main chain of a task: proxy and volume units, then the main unit. */
  function SpecOf(job: string, tg: TaskGroup, t: Task, sg: nat, options: ClusterOptions): ChainSpec
    requires forall n :: n in t.volumesFrom ==> HasTask(tg.tasks, n)
  {
    ChainSpec(Deployment.FullNames(Deployment.IdsOf(job, tg, t, Deployment.MainChainKinds(t), sg)),
              Excluded(job, options.requires_) + Services(t), Excluded(job, options.after) + Services(t),
              seq(|t.volumesFrom|, i requires 0 <= i < |t.volumesFrom| =>
                    assert t.volumesFrom[i] in t.volumesFrom;
                    MainName(job, tg, tg.tasks[IndexByName(tg.tasks, t.volumesFrom[i])], sg)))
  }

  function SpecsOf(job: string, tg: TaskGroup, sg: nat, options: ClusterOptions): seq<ChainSpec>
    requires forall t, n :: t in tg.tasks && n in t.volumesFrom ==> HasTask(tg.tasks, n)
  {
    seq(|tg.tasks|, i requires 0 <= i < |tg.tasks| => assert tg.tasks[i] in tg.tasks; SpecOf(job, tg, tg.tasks[i], sg, options))
  }

  /** What unit k of the main chain of task i is started after. */
  function UnitAfter(tasks: seq<Task>, specs: seq<ChainSpec>, i: nat, k: nat): seq<string>
    requires |specs| == |tasks| && i < |specs| && k < |specs[i].names|
  {
    specs[i].LinkedAfter(k) + ChainsOf(tasks, specs, tasks[i].after)
  }

  /** What unit k of the main chain of task i requires. */
  function UnitRequire(specs: seq<ChainSpec>, restartAll: bool, i: nat, k: nat): seq<string>
    requires i < |specs| && k < |specs[i].names|
  {
    specs[i].LinkedRequire(k) + if restartAll then OtherChains(specs, i, |specs|) else []
  }

  lemma SpecsHaveMain(job: string, tg: TaskGroup, sg: nat, options: ClusterOptions)
    requires VolumesExist(tg.tasks)
    ensures |SpecsOf(job, tg, sg, options)| == |tg.tasks|
    ensures forall i :: 0 <= i < |tg.tasks| ==> |SpecsOf(job, tg, sg, options)[i].names| > 0
  {
  }

  method FindVolumes(tasks: seq<Task>) returns (error: Option<UnitError>)
    ensures error == None <==> VolumesExist(tasks)
  {
    for i := 0 to |tasks|
      invariant VolumesExistIn(tasks, tasks[..i])
    {
      assert tasks[i] in tasks && tasks[..i + 1] == tasks[..i] + [tasks[i]];
      var names := tasks[i].volumesFrom;
      for l := 0 to |names|
        invariant forall n :: n in names[..l] ==> HasTask(tasks, n)
      {
        assert names[l] in names;
        if IndexByName(tasks, names[l]) < 0 { return Some(TaskNotFound(names[l])); }
      }
    }
    assert tasks[..|tasks|] == tasks;
    error := None;
  }

  ghost predicate VolumesExistIn(tasks: seq<Task>, part: seq<Task>) {
    forall t, n :: t in part && n in t.volumesFrom ==> HasTask(tasks, n)
  }

  /** The names are those of the units a task has besides its timer, in their order, the main unit last. */
  ghost predicate IsChainOf(job: string, tg: TaskGroup, t: Task, sg: nat, names: seq<string>) {
    exists kinds: seq<UnitKind> ::
      && |kinds| == |names|
      && (forall k :: 0 <= k < |names| ==> names[k] == UnitId(job, tg.name, t.name, kinds[k], sg, tg.global, tg.count).FullName())
      && (forall k :: k in kinds <==> !k.Timer? && Deployment.HasUnit(t, k))
      && (forall a, b :: 0 <= a < b < |kinds| ==> Deployment.UnitBefore(kinds[a], kinds[b]))
  }

  /** The names are those of the timers of the tasks that have one. */
  ghost predicate AreTimersOf(job: string, tg: TaskGroup, sg: nat, names: seq<string>) {
    forall n :: n in names <==>
      exists t :: t in tg.tasks && t.timer != "" && n == UnitId(job, tg.name, t.name, UnitKind.Timer, sg, tg.global, tg.count).FullName()
  }

  lemma SpecIsChain(job: string, tg: TaskGroup, sg: nat, options: ClusterOptions, i: nat)
    requires VolumesExist(tg.tasks) && i < |tg.tasks|
    ensures IsChainOf(job, tg, tg.tasks[i], sg, SpecsOf(job, tg, sg, options)[i].names)
  {
    var t, kinds := tg.tasks[i], Deployment.MainChainKinds(tg.tasks[i]);
    SpecNamesAre(job, tg, sg, options, i);
    Deployment.MainChainIs(t);
    hide SpecsOf, Deployment.MainChainKinds, UnitId.FullName, Deployment.HasUnit, Deployment.UnitBefore;
    assert |kinds| == |SpecsOf(job, tg, sg, options)[i].names|;
  }

  lemma SpecNamesAre(job: string, tg: TaskGroup, sg: nat, options: ClusterOptions, i: nat)
    requires VolumesExist(tg.tasks) && i < |tg.tasks|
    ensures var t, kinds, names := tg.tasks[i], Deployment.MainChainKinds(tg.tasks[i]), SpecsOf(job, tg, sg, options)[i].names;
            && |kinds| == |names|
            && forall k :: 0 <= k < |names| ==>
                 names[k] == UnitId(job, tg.name, t.name, kinds[k], sg, tg.global, tg.count).FullName()
  {
    var t := tg.tasks[i];
    var ids := Deployment.IdsOf(job, tg, t, Deployment.MainChainKinds(t), sg);
    assert SpecsOf(job, tg, sg, options)[i].names == Deployment.FullNames(ids);
    hide SpecsOf, Deployment.MainChainKinds, UnitId.FullName;
  }

  lemma {:induction false} TimersAre(job: string, tg: TaskGroup, tasks: seq<Task>, sg: nat)
    ensures forall n :: n in TimerNames(job, tg, tasks, sg) <==>
              exists t :: t in tasks && t.timer != "" && n == UnitId(job, tg.name, t.name, UnitKind.Timer, sg, tg.global, tg.count).FullName()
  {
    hide UnitId.FullName;
    if tasks != [] {
      var init, last := tasks[..|tasks| - 1], tasks[|tasks| - 1];
      TimersAre(job, tg, init, sg);
      assert tasks == init + [last];
    }
  }

  /** The timer units. They have the options that the cluster puts on every unit, and no others. */
  method CreateTimers(names: seq<string>, require: seq<string>, after: seq<string>) returns (timers: UnitChain)
    ensures fresh(timers) && NamesOf(timers) == names
    ensures forall k :: 0 <= k < |timers| ==> HasOptions(timers[k], require, after)
  {
    timers := [];
    for k := 0 to |names|
      invariant |timers| == k && fresh(timers)
      invariant forall l :: 0 <= l < k ==> timers[l].fullName == names[l] && HasOptions(timers[l], require, after)
    {
      var u := new Unit(names[k], require, after);
      timers := timers + [u];
    }
  }

  /** The main chains and the timers of a task group in a scaling group, with all their requirements and orderings. */
  method CreateTaskGroupUnits(job: string, tg: TaskGroup, sg: nat, options: ClusterOptions)
    returns (error: Option<UnitError>, mains: seq<UnitChain>, timers: UnitChain)
    ensures sg > tg.count ==> error == None && mains == [] && timers == []
    ensures sg <= tg.count ==> (error == None <==> forall t :: t in tg.tasks ==> LinksExist(tg.tasks, t))
    ensures sg <= tg.count && error == None ==>
              var specs := SpecsOf(job, tg, sg, options);
              && AreChains(mains, specs)
              && forall i, k :: 0 <= i < |mains| && 0 <= k < |mains[i]| ==>
                   && mains[i][k].require == UnitRequire(specs, tg.restartAll, i, k)
                   && mains[i][k].after == UnitAfter(tg.tasks, specs, i, k)
    ensures sg <= tg.count && error == None ==>
              && |mains| == |tg.tasks| && AreTimersOf(job, tg, sg, NamesOf(timers))
              && forall i :: 0 <= i < |mains| ==> IsChainOf(job, tg, tg.tasks[i], sg, NamesOf(mains[i]))
    ensures sg <= tg.count && error == None ==>
              && NamesOf(timers) == TimerNames(job, tg, tg.tasks, sg)
              && forall k :: 0 <= k < |timers| ==>
                   HasOptions(timers[k], Excluded(job, options.requires_), Excluded(job, options.after))
  {
    hide SpecsOf, Excluded, TimerNames, IsChainOf;
    mains, timers := [], [];
    if sg > tg.count { return None, [], []; }
    error := FindVolumes(tg.tasks);
    if error.Some? { return; }
    var specs := SpecsOf(job, tg, sg, options);
    SpecsHaveMain(job, tg, sg, options);
    forall i | 0 <= i < |tg.tasks| ensures IsChainOf(job, tg, tg.tasks[i], sg, specs[i].names) {
      SpecIsChain(job, tg, sg, options, i);
    }
    TimersAre(job, tg, tg.tasks, sg);
    error, mains := CreateFromSpecs(tg.tasks, specs, tg.restartAll);
    if error.Some? { return; }
    var require := ExcludeUnitsOfJob(job, options.requires_);
    var after := ExcludeUnitsOfJob(job, options.after);
    timers := CreateTimers(TimerNames(job, tg, tg.tasks, sg), require, after);
  }

  method CreateFromSpecs(tasks: seq<Task>, specs: seq<ChainSpec>, restartAll: bool)
    returns (error: Option<UnitError>, mains: seq<UnitChain>)
    requires |tasks| == |specs| && forall i :: 0 <= i < |specs| ==> |specs[i].names| > 0
    ensures error == None <==> forall t, n :: t in tasks && n in t.after ==> HasTask(tasks, n)
    ensures error == None ==>
              && AreChains(mains, specs)
              && forall i, k :: 0 <= i < |mains| && 0 <= k < |mains[i]| ==>
                   && mains[i][k].require == UnitRequire(specs, restartAll, i, k)
                   && mains[i][k].after == UnitAfter(tasks, specs, i, k)
  {
    hide ChainsOf, OtherChains, NamesOf, HasTask;
    mains := CreateChains(specs);
    if restartAll {
      BindAll(mains, specs);
    }
    error := OrderAll(tasks, mains, specs);
  }
}
