/**
Containers of a pod: the tasks whose volumes a container mounts, the split into init containers and
containers, and the order in which they run.
*/
module PodSpec {
  import opened Wrappers
  import opened Graph
  import opened Jobs
  import opened PodSort

  datatype SpecError = MountTaskNotFound(name: string) | VolumeNotSupported

  datatype ContainerKind = SecretEnv(task: string) | SecretFile(task: string, index: nat) | Main(task: string)

  datatype Mount = Mount(hostPath: string, path: string, readOnly: bool)

  datatype Container = Container(kind: ContainerKind, mounts: seq<Mount>)

  // ----- Tasks to mount volumes from -----

  /** VolumesFrom as edges between the tasks of a pod and the names they give. */
  ghost function VolumeEdges(tasks: seq<Task>): Edges {
    set t, n | t in tasks && n in t.volumesFrom :: (t.name, n)
  }

  ghost predicate MountsFrom(tasks: seq<Task>, t: Task, name: string) {
    Reaches(VolumeEdges(tasks), t.name, name)
  }

  /** Every task named by the first k entries of the list is in the list itself. */
  ghost predicate ClosedUpTo(list: seq<Task>, k: nat)
    requires k <= |list|
  {
    forall i, n :: 0 <= i < k && n in list[i].volumesFrom ==> HasTask(list, n)
  }

  ghost predicate MountList(tasks: seq<Task>, t: Task, list: seq<Task>) {
    && DistinctNames(list) && |list| > 0 && list[0] == t
    && forall x :: x in list ==> x in tasks && MountsFrom(tasks, t, x.name)
  }

  /**
  The worklist that grows while it is walked. It ends up with exactly the tasks reachable over
  VolumesFrom, each once, and fails exactly when one of them is not in the pod.
  */
  method CollectMountTasks(tasks: seq<Task>, t: Task) returns (r: Result<seq<Task>, SpecError>)
    requires DistinctNames(tasks) && t in tasks
    ensures r.Ok? ==> MountList(tasks, t, r.value)
    ensures r.Ok? ==> forall n :: MountsFrom(tasks, t, n) <==> HasTask(r.value, n)
    ensures r.Err? ==> r.error.MountTaskNotFound? && MountsFrom(tasks, t, r.error.name) && !HasTask(tasks, r.error.name)
  {
    var list := [t];
    ReachesSelf(VolumeEdges(tasks), t.name);
    var i := 0;
    while i < |list|
      invariant MountList(tasks, t, list) && i <= |list| && ClosedUpTo(list, i)
      decreases |tasks| - i
    {
      ListFits(tasks, list);
      var names := list[i].volumesFrom;
      for k := 0 to |names|
        invariant MountList(tasks, t, list) && i < |list| && names == list[i].volumesFrom
        invariant ClosedUpTo(list, i)
        invariant forall l :: 0 <= l < k ==> HasTask(list, names[l])
      {
        if IndexByName(list, names[k]) < 0 {
          NextMount(tasks, t, list, i, names[k]);
          var other := IndexByName(tasks, names[k]);
          if other < 0 {
            return Err(MountTaskNotFound(names[k]));
          }
          GrowList(list, tasks[other]);
          list := list + [tasks[other]];
        }
      }
      i := i + 1;
    }
    ClosedListIsAll(tasks, t, list);
    return Ok(list);
  }

  /** A list of different tasks of the pod is no longer than the pod. */
  lemma ListFits(tasks: seq<Task>, list: seq<Task>)
    requires DistinctNames(list) && forall x :: x in list ==> x in tasks
    ensures |list| <= |tasks|
  {
    var some, all := set x | x in list, set x | x in tasks;
    DistinctSize(list);
    SetSize(tasks);
    assert some <= all;
    SubsetSize(some, all);
  }

  lemma {:induction false} DistinctSize(list: seq<Task>)
    requires DistinctNames(list)
    ensures |set x | x in list| == |list|
  {
    if list != [] {
      var init, last := list[..|list| - 1], list[|list| - 1];
      DistinctSize(init);
      assert (set x | x in list) == (set x | x in init) + {last};
      assert last !in init;
    }
  }

  lemma {:induction false} SetSize(list: seq<Task>)
    ensures |set x | x in list| <= |list|
  {
    if list != [] {
      var init, last := list[..|list| - 1], list[|list| - 1];
      SetSize(init);
      assert (set x | x in list) == (set x | x in init) + {last};
    }
  }

  lemma SubsetSize(a: set<Task>, b: set<Task>)
    requires a <= b
    ensures |a| <= |b|
  {
    assert b == a + (b - a);
  }

  lemma NextMount(tasks: seq<Task>, t: Task, list: seq<Task>, i: nat, n: string)
    requires MountList(tasks, t, list) && i < |list| && n in list[i].volumesFrom
    ensures MountsFrom(tasks, t, n)
  {
    assert list[i] in list;
    assert (list[i].name, n) in VolumeEdges(tasks);
    StepReaches(VolumeEdges(tasks), t.name, list[i].name, n);
  }

  lemma GrowList(list: seq<Task>, x: Task)
    requires DistinctNames(list) && !HasTask(list, x.name)
    ensures DistinctNames(list + [x]) && HasTask(list + [x], x.name)
    ensures forall n :: HasTask(list, n) ==> HasTask(list + [x], n)
  {
    var more := list + [x];
    assert more[|list|].name == x.name;
    forall n | HasTask(list, n) ensures HasTask(more, n) {
      var i :| 0 <= i < |list| && list[i].name == n;
      assert more[i].name == n;
    }
  }

  lemma ClosedListIsAll(tasks: seq<Task>, t: Task, list: seq<Task>)
    requires DistinctNames(tasks) && MountList(tasks, t, list) && ClosedUpTo(list, |list|)
    ensures forall n :: MountsFrom(tasks, t, n) <==> HasTask(list, n)
  {
    var names := set x | x in list :: x.name;
    forall a, b | (a, b) in VolumeEdges(tasks) && a in names ensures b in names {
      var x :| x in tasks && b in x.volumesFrom && a == x.name;
      var y :| y in list && y.name == a;
      SameTask(tasks, x, y);
      var i :| 0 <= i < |list| && list[i] == y;
      assert HasTask(list, b);
      var j :| 0 <= j < |list| && list[j].name == b;
      assert list[j] in list;
    }
    forall n ensures MountsFrom(tasks, t, n) <==> HasTask(list, n) {
      if MountsFrom(tasks, t, n) {
        assert list[0] in list && t.name in names;
        ReachableStaysInside(VolumeEdges(tasks), t.name, n, names);
        var y :| y in list && y.name == n;
        var i :| 0 <= i < |list| && list[i] == y;
      }
      if i :| 0 <= i < |list| && list[i].name == n {
        assert list[i] in list;
      }
    }
  }

  lemma SameTask(tasks: seq<Task>, x: Task, y: Task)
    requires DistinctNames(tasks) && x in tasks && y in tasks && x.name == y.name
    ensures x == y
  {
    var i :| 0 <= i < |tasks| && tasks[i] == x;
    var j :| 0 <= j < |tasks| && tasks[j] == y;
  }

  /** In a pod that has every task its VolumesFrom name, the worklist never fails. */
  lemma ClosedPodHasMounts(tasks: seq<Task>, t: Task, n: string)
    requires t in tasks && MountsFrom(tasks, t, n) && ClosedPod(tasks)
    ensures HasTask(tasks, n)
  {
    var names := set x | x in tasks :: x.name;
    forall a, b | (a, b) in VolumeEdges(tasks) && a in names ensures b in names {
      var x :| x in tasks && b in x.volumesFrom && a == x.name;
      assert HasTask(tasks, b);
      var j :| 0 <= j < |tasks| && tasks[j].name == b;
      assert tasks[j] in tasks;
    }
    assert t.name in names;
    ReachableStaysInside(VolumeEdges(tasks), t.name, n, names);
    var y :| y in tasks && y.name == n;
    var i :| 0 <= i < |tasks| && tasks[i] == y;
  }

  // ----- Containers of one task -----

  function MountOf(v: Volume): Mount {
    Mount(v.hostPath, v.path, "ro" in v.options)
  }

  function FileSecrets(secrets: seq<SecretTarget>): nat {
    if secrets == [] then 0
    else FileSecrets(secrets[..|secrets| - 1]) + if secrets[|secrets| - 1].ToFile? then 1 else 0
  }

  function SecretFiles(task: string, n: nat): (r: seq<ContainerKind>)
    ensures |r| == n && forall i :: 0 <= i < n ==> r[i] == SecretFile(task, i)
  {
    seq(n, i requires 0 <= i < n => SecretFile(task, i))
  }

  /** One container for all secrets that go to the environment, and one for each that goes to a file. */
  function SecretKinds(t: Task): seq<ContainerKind> {
    (if ToEnvironment in t.secrets then [SecretEnv(t.name)] else []) + SecretFiles(t.name, FileSecrets(t.secrets))
  }

  /** The init containers of a task: those extracting its secrets, then the task itself if it is one-shot. */
  function InitKindsOf(t: Task): seq<ContainerKind> {
    if t.taskType.Proxy? then []
    else SecretKinds(t) + if t.taskType.Oneshot? then [Main(t.name)] else []
  }

  function MainKindsOf(t: Task): seq<ContainerKind> {
    if t.taskType.Service? then [Main(t.name)] else []
  }

  function Kinds(containers: seq<Container>): (r: seq<ContainerKind>)
    ensures |r| == |containers| && forall i :: 0 <= i < |r| ==> r[i] == containers[i].kind
  {
    seq(|containers|, i requires 0 <= i < |containers| => containers[i].kind)
  }

  /** The container of a task mounts the volumes of exactly the tasks it mounts from. */
  ghost predicate RightMounts(tasks: seq<Task>, t: Task, c: Container) {
    forall m :: m in c.mounts <==> exists x, v :: x in tasks && MountsFrom(tasks, t, x.name) && v in x.volumes && IsMountOf(m, v)
  }

  /** The host path of the volume at its path in the container, read-only if the volume says so. */
  predicate IsMountOf(m: Mount, v: Volume) {
    m.hostPath == v.hostPath && m.path == v.path && (m.readOnly <==> "ro" in v.options)
  }

  lemma SameMount(list: seq<Task>, m: Mount)
    ensures (exists x, v :: x in list && v in x.volumes && m == MountOf(v))
       <==> (exists x, v :: x in list && v in x.volumes && IsMountOf(m, v))
  {
    if x, v :| x in list && v in x.volumes && m == MountOf(v) { assert IsMountOf(m, v); }
    if x, v :| x in list && v in x.volumes && IsMountOf(m, v) { assert m == MountOf(v); }
  }

  method CreateMounts(list: seq<Task>) returns (r: Result<seq<Mount>, SpecError>)
    ensures r.Err? <==> exists x, v :: x in list && v in x.volumes && !v.IsLocal()
    ensures r.Err? ==> r.error == VolumeNotSupported
    ensures r.Ok? ==> forall m :: m in r.value <==> exists x, v :: x in list && v in x.volumes && IsMountOf(m, v)
  {
    var mounts := [];
    for i := 0 to |list|
      invariant forall x, v :: x in list[..i] && v in x.volumes ==> v.IsLocal()
      invariant forall m :: m in mounts <==> exists x, v :: x in list[..i] && v in x.volumes && m == MountOf(v)
    {
      ghost var before := mounts;
      var volumes := list[i].volumes;
      assert list[i] in list;
      for k := 0 to |volumes|
        invariant forall v :: v in volumes[..k] ==> v.IsLocal()
        invariant forall m :: m in mounts <==> m in before || exists v :: v in volumes[..k] && m == MountOf(v)
      {
        if !volumes[k].IsLocal() {
          return Err(VolumeNotSupported);
        }
        assert volumes[..k + 1] == volumes[..k] + [volumes[k]];
        mounts := mounts + [MountOf(volumes[k])];
      }
      assert volumes[..|volumes|] == volumes;
      assert list[..i + 1] == list[..i] + [list[i]];
    }
    assert list[..|list|] == list;
    forall m ensures m in mounts <==> exists x, v :: x in list && v in x.volumes && IsMountOf(m, v) {
      SameMount(list, m);
    }
    return Ok(mounts);
  }

  function SecretContainers(task: string, env: bool, files: nat): seq<Container> {
    (if env then [Container(SecretEnv(task), [])] else []) + seq(files, i requires 0 <= i < files => Container(SecretFile(task, i), []))
  }

  lemma SecretContainersAre(task: string, env: bool, files: nat)
    ensures Kinds(SecretContainers(task, env, files)) == (if env then [SecretEnv(task)] else []) + SecretFiles(task, files)
    ensures forall c :: c in SecretContainers(task, env, files) ==> !c.kind.Main?
  {
  }

  method CreateSecretContainers(t: Task) returns (init: seq<Container>)
    ensures Kinds(init) == SecretKinds(t) && forall c :: c in init ==> !c.kind.Main?
  {
    var envSecrets, fileSecrets := false, 0;
    for i := 0 to |t.secrets|
      invariant envSecrets <==> ToEnvironment in t.secrets[..i]
      invariant fileSecrets == FileSecrets(t.secrets[..i])
    {
      assert t.secrets[..i + 1] == t.secrets[..i] + [t.secrets[i]] && t.secrets[..i + 1][..i] == t.secrets[..i];
      if t.secrets[i].ToEnvironment? {
        envSecrets := true;
      } else if t.secrets[i].ToFile? {
        fileSecrets := fileSecrets + 1;
      }
    }
    assert t.secrets[..|t.secrets|] == t.secrets;
    hide FileSecrets, SecretContainers, Kinds;
    SecretContainersAre(t.name, envSecrets, fileSecrets);
    init := SecretContainers(t.name, envSecrets, fileSecrets);
  }

  method CreateTaskContainers(tasks: seq<Task>, t: Task) returns (r: Result<(seq<Container>, seq<Container>), SpecError>)
    requires DistinctNames(tasks) && t in tasks
    ensures r.Ok? ==> Kinds(r.value.0) == InitKindsOf(t) && Kinds(r.value.1) == MainKindsOf(t)
    ensures r.Ok? ==> forall k :: k in Kinds(r.value.0) + Kinds(r.value.1) <==> HasContainer(t, k)
    ensures r.Ok? ==> Kinds(r.value.1) == if t.taskType.Service? then [Main(t.name)] else []
    ensures r.Ok? ==> forall c :: c in r.value.0 + r.value.1 && c.kind.Main? ==> RightMounts(tasks, t, c)
    ensures r.Err? && r.error.MountTaskNotFound? ==> MountsFrom(tasks, t, r.error.name) && !HasTask(tasks, r.error.name)
    ensures r.Err? && r.error.VolumeNotSupported? ==> HasRemoteVolume(tasks)
  {
    OwnContainers(t);
    if t.taskType.Proxy? { return Ok(([], [])); }
    var init := CreateSecretContainers(t);
    var found := CollectMountTasks(tasks, t);
    if found.Err? { return Err(found.error); }
    var mounts := CreateMounts(found.value);
    if mounts.Err? { return Err(mounts.error); }
    var c := Container(Main(t.name), mounts.value);
    MountsAreRight(tasks, t, found.value, c);
    var containers := if t.taskType.Service? then [c] else [];
    if t.taskType.Oneshot? { init := init + [c]; }
    assert Kinds(init) == InitKindsOf(t) && Kinds(containers) == MainKindsOf(t);
    return Ok((init, containers));
  }

  lemma MountsAreRight(tasks: seq<Task>, t: Task, list: seq<Task>, c: Container)
    requires DistinctNames(tasks) && MountList(tasks, t, list)
    requires forall n :: MountsFrom(tasks, t, n) <==> HasTask(list, n)
    requires forall m :: m in c.mounts <==> exists x, v :: x in list && v in x.volumes && IsMountOf(m, v)
    ensures RightMounts(tasks, t, c)
  {
    forall x ensures x in list <==> x in tasks && MountsFrom(tasks, t, x.name) {
      if x in tasks && MountsFrom(tasks, t, x.name) {
        var i :| 0 <= i < |list| && list[i].name == x.name;
        assert list[i] in list;
        SameTask(tasks, x, list[i]);
      }
    }
  }

  // ----- Containers of a pod -----

  function InitKinds(tasks: seq<Task>): seq<ContainerKind> {
    if tasks == [] then [] else InitKinds(tasks[..|tasks| - 1]) + InitKindsOf(tasks[|tasks| - 1])
  }

  function MainKinds(tasks: seq<Task>): seq<ContainerKind> {
    if tasks == [] then [] else MainKinds(tasks[..|tasks| - 1]) + MainKindsOf(tasks[|tasks| - 1])
  }

  datatype Spec = Spec(init: seq<Container>, containers: seq<Container>) {
    /** The init containers one after the other, and then the containers. */
    function RunOrder(): seq<ContainerKind> { Kinds(init) + Kinds(containers) }
  }

  /** Main containers mount what their task mounts from. */
  ghost predicate MountedRight(tasks: seq<Task>, containers: seq<Container>) {
    forall c :: c in containers && c.kind.Main? ==> exists t :: t in tasks && t.name == c.kind.task && RightMounts(tasks, t, c)
  }

  // ----- Which containers a pod should have -----

  /** The task has this container: one for itself, one for its environment secrets and one for each file secret. */
  ghost predicate HasContainer(t: Task, k: ContainerKind) {
    && t.name == k.task && !t.taskType.Proxy?
    && match k
       case Main(_) => true
       case SecretEnv(_) => ToEnvironment in t.secrets
       case SecretFile(_, i) => i < multiset(t.secrets)[ToFile]
  }

  ghost predicate HasService(tasks: seq<Task>) {
    exists t :: t in tasks && t.taskType.Service?
  }

  /** Exactly these containers run, each once, and the secrets of a task are there before its own container runs. */
  ghost predicate RightOrder(tasks: seq<Task>, order: seq<ContainerKind>) {
    && (forall k :: k in order <==> exists t :: t in tasks && HasContainer(t, k))
    && (forall a, b :: 0 <= a < b < |order| ==> order[a] != order[b])
    && (forall a, b :: 0 <= a < |order| && 0 <= b < |order| && order[a].task == order[b].task && order[b].Main? ==> a <= b)
  }

  /** The containers proper are those of the service tasks, or the last container if there is no service task. */
  ghost predicate RightContainers(tasks: seq<Task>, spec: Spec) {
    && RightOrder(tasks, spec.RunOrder())
    && (HasService(tasks) ==> forall k :: k in Kinds(spec.containers) <==>
          k.Main? && exists t :: t in tasks && t.taskType.Service? && t.name == k.task)
    && (!HasService(tasks) ==> |spec.containers| == if exists t :: t in tasks && !t.taskType.Proxy? then 1 else 0)
  }

  lemma {:induction false} FileSecretsAre(secrets: seq<SecretTarget>)
    ensures FileSecrets(secrets) == multiset(secrets)[ToFile]
  {
    if secrets != [] {
      var init, last := secrets[..|secrets| - 1], secrets[|secrets| - 1];
      FileSecretsAre(init);
      assert secrets == init + [last];
    }
  }

  /** The containers of one task, its own one last. */
  lemma OwnContainers(t: Task)
    ensures forall k :: k in InitKindsOf(t) + MainKindsOf(t) <==> HasContainer(t, k)
    ensures forall i :: 0 <= i < |InitKindsOf(t)| && InitKindsOf(t)[i].Main? ==> i == |InitKindsOf(t)| - 1
  {
    FileSecretsAre(t.secrets);
    var env := if ToEnvironment in t.secrets then [SecretEnv(t.name)] else [];
    var files := SecretFiles(t.name, FileSecrets(t.secrets));
    var main := if t.taskType.Oneshot? then [Main(t.name)] else [];
    if !t.taskType.Proxy? {
      assert InitKindsOf(t) == env + files + main;
      forall k ensures k in files <==> k.SecretFile? && k.task == t.name && k.index < |files| {
        if k.SecretFile? && k.task == t.name && k.index < |files| { assert files[k.index] == k; }
      }
      hide FileSecrets;
    }
  }

  lemma {:induction false} KindsOfTasks(tasks: seq<Task>, k: ContainerKind)
    ensures k in InitKinds(tasks) <==> exists t :: t in tasks && k in InitKindsOf(t)
    ensures k in MainKinds(tasks) <==> exists t :: t in tasks && k in MainKindsOf(t)
  {
    hide InitKindsOf, MainKindsOf;
    if tasks != [] {
      var init, last := tasks[..|tasks| - 1], tasks[|tasks| - 1];
      KindsOfTasks(init, k);
      assert tasks == init + [last];
    }
  }

  lemma {:induction false} MainKindsOnce(tasks: seq<Task>)
    requires DistinctNames(tasks)
    ensures forall a, b :: 0 <= a < b < |MainKinds(tasks)| ==> MainKinds(tasks)[a] != MainKinds(tasks)[b]
  {
    if tasks != [] {
      var init, last := tasks[..|tasks| - 1], tasks[|tasks| - 1];
      MainKindsOnce(init);
      KindsOfTasks(init, Main(last.name));
      forall t | t in init ensures Main(last.name) !in MainKindsOf(t) {
        SameTaskEarlier(tasks, t);
      }
      forall a | 0 <= a < |MainKinds(init)| ensures MainKinds(init)[a] in MainKinds(init) {}
    }
  }

  lemma SameTaskEarlier(tasks: seq<Task>, t: Task)
    requires DistinctNames(tasks) && tasks != [] && t in tasks[..|tasks| - 1]
    ensures t.name != tasks[|tasks| - 1].name
  {
    var i :| 0 <= i < |tasks| - 1 && tasks[..|tasks| - 1][i] == t;
    assert tasks[i] == t;
  }

  /** In the list of all init containers too, the own container of a task is its last. */
  lemma {:induction false} OwnContainerIsLast(tasks: seq<Task>, a: nat, b: nat)
    requires DistinctNames(tasks) && a < |InitKinds(tasks)| && b < |InitKinds(tasks)|
    requires InitKinds(tasks)[a].task == InitKinds(tasks)[b].task && InitKinds(tasks)[b].Main?
    ensures a <= b
  {
    var init, last := tasks[..|tasks| - 1], tasks[|tasks| - 1];
    var front, back := InitKinds(init), InitKindsOf(last);
    OwnContainers(last);
    OwnKinds(last);
    EarlierKinds(tasks);
    hide InitKindsOf, MainKindsOf, DistinctNames;
    var all := InitKinds(tasks);
    assert all == front + back;
    assert a < |front| ==> all[a] in front;
    assert b < |front| ==> all[b] in front;
    assert a >= |front| ==> all[a] == back[a - |front|] && all[a] in back;
    assert b >= |front| ==> all[b] == back[b - |front|] && all[b] in back;
    if a < |front| && b < |front| {
      OwnContainerIsLast(init, a, b);
    }
  }

  lemma EarlierKinds(tasks: seq<Task>)
    requires DistinctNames(tasks) && tasks != []
    ensures forall k :: k in InitKinds(tasks[..|tasks| - 1]) ==> k.task != tasks[|tasks| - 1].name
  {
    var init := tasks[..|tasks| - 1];
    forall k | k in InitKinds(init) ensures k.task != tasks[|tasks| - 1].name {
      KindsOfTasks(init, k);
      var t :| t in init && k in InitKindsOf(t);
      OwnKinds(t);
      SameTaskEarlier(tasks, t);
    }
  }

  lemma RightMembers(tasks: seq<Task>, k: ContainerKind)
    ensures k in InitKinds(tasks) + MainKinds(tasks) <==> exists t :: t in tasks && HasContainer(t, k)
  {
    KindsOfTasks(tasks, k);
    forall t ensures k in InitKindsOf(t) || k in MainKindsOf(t) <==> HasContainer(t, k) {
      OwnContainers(t);
      assert k in InitKindsOf(t) + MainKindsOf(t) <==> k in InitKindsOf(t) || k in MainKindsOf(t);
    }
    hide HasContainer, InitKindsOf, MainKindsOf, InitKinds, MainKinds;
  }

  /** The order that createPodSpec comes to is the right one. */
  lemma KindsAreRight(tasks: seq<Task>)
    requires DistinctNames(tasks)
    ensures RightOrder(tasks, InitKinds(tasks) + MainKinds(tasks))
  {
    var init, main := InitKinds(tasks), MainKinds(tasks);
    var order := init + main;
    hide InitKinds, MainKinds, HasContainer;
    forall k ensures k in order <==> exists t :: t in tasks && HasContainer(t, k) {
      RightMembers(tasks, k);
    }
    forall a, b | 0 <= a < b < |order| ensures order[a] != order[b] {
      OrderOnce(tasks, a, b);
    }
    forall a, b | 0 <= a < |order| && 0 <= b < |order| && order[a].task == order[b].task && order[b].Main? ensures a <= b {
      OrderEndsWithMain(tasks, a, b);
    }
  }

  lemma MainIsOfService(tasks: seq<Task>, k: ContainerKind)
    ensures k in MainKinds(tasks) <==> k.Main? && exists t :: t in tasks && t.taskType.Service? && t.name == k.task
  {
    KindsOfTasks(tasks, k);
  }

  lemma OrderOnce(tasks: seq<Task>, a: nat, b: nat)
    requires DistinctNames(tasks) && a < b < |InitKinds(tasks) + MainKinds(tasks)|
    ensures (InitKinds(tasks) + MainKinds(tasks))[a] != (InitKinds(tasks) + MainKinds(tasks))[b]
  {
    hide InitKinds, MainKinds;
    var init, main := InitKinds(tasks), MainKinds(tasks);
    InitKindsInOrder(tasks);
    MainKindsOnce(tasks);
    if a < |init| <= b {
      assert init[a] in init && main[b - |init|] in main;
      if init[a] == main[b - |init|] {
        MainIsOfService(tasks, init[a]);
        KindsOfTasks(tasks, init[a]);
        var s :| s in tasks && s.taskType.Service? && s.name == init[a].task;
        var t :| t in tasks && init[a] in InitKindsOf(t);
        OwnKinds(t);
        SameTask(tasks, s, t);
      }
    } else if a >= |init| {
      assert (init + main)[a] == main[a - |init|] && (init + main)[b] == main[b - |init|];
    }
  }

  lemma OrderEndsWithMain(tasks: seq<Task>, a: nat, b: nat)
    requires DistinctNames(tasks) && a < |InitKinds(tasks) + MainKinds(tasks)| && b < |InitKinds(tasks) + MainKinds(tasks)|
    requires (InitKinds(tasks) + MainKinds(tasks))[a].task == (InitKinds(tasks) + MainKinds(tasks))[b].task
    requires (InitKinds(tasks) + MainKinds(tasks))[b].Main?
    ensures a <= b
  {
    hide InitKinds, MainKinds;
    var init, main := InitKinds(tasks), MainKinds(tasks);
    if a < |init| && b < |init| {
      OwnContainerIsLast(tasks, a, b);
    } else if b < a {
      assert main[a - |init|] in main;
      MainIsOfService(tasks, main[a - |init|]);
      OrderOnce(tasks, b, a);
    }
  }

  /**
  createPodSpec. A pod without a service container runs its last init container as its only
  container. No container gets lost, and a spec fails only for a missing task or a volume that
  is not local.
  */
  method CreatePodSpec(tasks: seq<Task>) returns (r: Result<Spec, SpecError>)
    requires DistinctNames(tasks)
    ensures r.Ok? ==> r.value.RunOrder() == InitKinds(tasks) + MainKinds(tasks)
    ensures r.Ok? && MainKinds(tasks) != [] ==> Kinds(r.value.containers) == MainKinds(tasks)
    ensures r.Ok? && MainKinds(tasks) == [] ==> |r.value.containers| == if InitKinds(tasks) == [] then 0 else 1
    ensures r.Ok? ==> RightContainers(tasks, r.value)
    ensures r.Ok? ==> MountedRight(tasks, r.value.init + r.value.containers)
    ensures ClosedPod(tasks) ==> (r.Err? <==> HasRemoteVolume(tasks))
    ensures ClosedPod(tasks) ==> r.Ok? || r.error == VolumeNotSupported
  {
    hide RightContainers, MountedRight, ClosedPod, HasRemoteVolume, InitKinds, MainKinds;
    var allLocal := CheckVolumes(tasks);
    if !allLocal { return Err(VolumeNotSupported); }
    var created := CreateContainers(tasks);
    if created.Err? { return Err(created.error); }
    var (init, containers) := created.value;
    SpecIsRight(tasks, init, containers);
    hide Kinds, Spec.RunOrder, Finished;
    var spec := Spec(init, containers);
    if |init| > 0 && |containers| == 0 {
      spec := Spec(init[..|init| - 1], init[|init| - 1..]);
    }
    FinishedIs(init, containers);
    assert spec == Finished(init, containers);
    return Ok(spec);
  }

  /** The spec with these init containers and containers, where the last init container may have to stand in. */
  function Finished(init: seq<Container>, containers: seq<Container>): Spec {
    if |init| > 0 && |containers| == 0 then Spec(init[..|init| - 1], init[|init| - 1..]) else Spec(init, containers)
  }

  lemma FinishedIs(init: seq<Container>, containers: seq<Container>)
    ensures Finished(init, containers) == if |init| > 0 && |containers| == 0
                                          then Spec(init[..|init| - 1], init[|init| - 1..]) else Spec(init, containers)
    ensures Finished(init, containers).init + Finished(init, containers).containers == init + containers
  {
  }

  lemma SpecIsRight(tasks: seq<Task>, init: seq<Container>, containers: seq<Container>)
    requires DistinctNames(tasks) && Kinds(init) == InitKinds(tasks) && Kinds(containers) == MainKinds(tasks)
    ensures var spec := Finished(init, containers);
            && RightContainers(tasks, spec) && spec.RunOrder() == InitKinds(tasks) + MainKinds(tasks)
            && (MainKinds(tasks) != [] ==> Kinds(spec.containers) == MainKinds(tasks))
            && (MainKinds(tasks) == [] ==> |spec.containers| == if InitKinds(tasks) == [] then 0 else 1)
  {
    FinishedKinds(init, containers);
    KindsAreRight(tasks);
    SomeContainer(tasks);
    hide RightOrder, InitKinds, MainKinds, DistinctNames, Finished, Spec.RunOrder, Kinds;
    if HasService(tasks) {
      ServicesHaveContainers(tasks);
    } else {
      NoServices(tasks);
    }
  }

  lemma ServicesHaveContainers(tasks: seq<Task>)
    requires HasService(tasks)
    ensures MainKinds(tasks) != []
    ensures forall k :: k in MainKinds(tasks) <==> k.Main? && exists t :: t in tasks && t.taskType.Service? && t.name == k.task
  {
    hide MainKinds;
    forall k ensures k in MainKinds(tasks) <==> k.Main? && exists t :: t in tasks && t.taskType.Service? && t.name == k.task {
      MainIsOfService(tasks, k);
    }
    var t :| t in tasks && t.taskType.Service?;
    assert Main(t.name) in MainKinds(tasks);
  }

  lemma FinishedKinds(init: seq<Container>, containers: seq<Container>)
    ensures var spec := Finished(init, containers);
            && spec.RunOrder() == Kinds(init) + Kinds(containers)
            && (Kinds(containers) != [] ==> Kinds(spec.containers) == Kinds(containers))
            && (Kinds(containers) == [] ==> |spec.containers| == if Kinds(init) == [] then 0 else 1)
  {
    if |init| > 0 && |containers| == 0 {
      SplitKinds(init, |init| - 1);
      assert Kinds(init) + [] == Kinds(init);
    }
  }

  lemma SomeContainer(tasks: seq<Task>)
    ensures InitKinds(tasks) + MainKinds(tasks) != [] <==> exists t :: t in tasks && !t.taskType.Proxy?
  {
    var order := InitKinds(tasks) + MainKinds(tasks);
    hide InitKinds, MainKinds, DistinctNames;
    if order != [] {
      assert order[0] in order;
      RightMembers(tasks, order[0]);
    }
    if t :| t in tasks && !t.taskType.Proxy? {
      assert HasContainer(t, Main(t.name));
      RightMembers(tasks, Main(t.name));
    }
  }

  lemma SplitKinds(containers: seq<Container>, k: nat)
    requires k <= |containers|
    ensures Kinds(containers[..k]) + Kinds(containers[k..]) == Kinds(containers)
  {
  }

  /** Every task named in VolumesFrom is in the pod. */
  ghost predicate ClosedPod(tasks: seq<Task>) {
    forall x, m :: x in tasks && m in x.volumesFrom ==> HasTask(tasks, m)
  }

  ghost predicate HasRemoteVolume(tasks: seq<Task>) {
    exists x, v :: x in tasks && v in x.volumes && !v.IsLocal()
  }

  method CheckVolumes(tasks: seq<Task>) returns (allLocal: bool)
    ensures allLocal <==> !HasRemoteVolume(tasks)
  {
    for i := 0 to |tasks|
      invariant forall x, v :: x in tasks[..i] && v in x.volumes ==> v.IsLocal()
    {
      assert tasks[i] in tasks && tasks[..i + 1] == tasks[..i] + [tasks[i]];
      if exists v :: v in tasks[i].volumes && !v.IsLocal() {
        return false;
      }
    }
    assert tasks[..|tasks|] == tasks;
    return true;
  }

  method CreateContainers(tasks: seq<Task>) returns (r: Result<(seq<Container>, seq<Container>), SpecError>)
    requires DistinctNames(tasks)
    ensures r.Ok? ==> Kinds(r.value.0) == InitKinds(tasks) && Kinds(r.value.1) == MainKinds(tasks)
    ensures r.Ok? ==> MountedRight(tasks, r.value.0 + r.value.1)
    ensures r.Err? && ClosedPod(tasks) ==> HasRemoteVolume(tasks) && r.error == VolumeNotSupported
  {
    var init: seq<Container>, containers: seq<Container> := [], [];
    for i := 0 to |tasks|
      invariant Kinds(init) == InitKinds(tasks[..i]) && Kinds(containers) == MainKinds(tasks[..i])
      invariant MountedRight(tasks, init + containers)
    {
      var created := CreateTaskContainers(tasks, tasks[i]);
      if created.Err? {
        if ClosedPod(tasks) { ClosedPodFails(tasks, tasks[i], created.error); }
        return Err(created.error);
      }
      var (a, b) := created.value;
      AddContainers(tasks, i, init, containers, a, b);
      init, containers := init + a, containers + b;
    }
    assert tasks[..|tasks|] == tasks;
    return Ok((init, containers));
  }

  lemma KindsAppend(a: seq<Container>, b: seq<Container>)
    ensures Kinds(a + b) == Kinds(a) + Kinds(b)
  {
  }

  lemma AddContainers(tasks: seq<Task>, i: nat, init: seq<Container>, containers: seq<Container>, a: seq<Container>, b: seq<Container>)
    requires i < |tasks| && MountedRight(tasks, init + containers)
    requires Kinds(init) == InitKinds(tasks[..i]) && Kinds(containers) == MainKinds(tasks[..i])
    requires Kinds(a) == InitKindsOf(tasks[i]) && Kinds(b) == MainKindsOf(tasks[i])
    requires forall c :: c in a + b && c.kind.Main? ==> RightMounts(tasks, tasks[i], c)
    ensures Kinds(init + a) == InitKinds(tasks[..i + 1]) && Kinds(containers + b) == MainKinds(tasks[..i + 1])
    ensures MountedRight(tasks, init + a + (containers + b))
  {
    hide MountedRight, RightMounts, InitKindsOf, MainKindsOf;
    assert tasks[i] in tasks && tasks[..i + 1][..i] == tasks[..i];
    KindsAppend(init, a);
    KindsAppend(containers, b);
    hide Kinds;
    KeepMounts(tasks, tasks[i], init, containers, a, b);
  }

  lemma ClosedPodFails(tasks: seq<Task>, t: Task, error: SpecError)
    requires t in tasks && ClosedPod(tasks)
    requires error.MountTaskNotFound? ==> MountsFrom(tasks, t, error.name) && !HasTask(tasks, error.name)
    requires error.VolumeNotSupported? ==> HasRemoteVolume(tasks)
    ensures HasRemoteVolume(tasks) && error == VolumeNotSupported
  {
    if error.MountTaskNotFound? {
      ClosedPodHasMounts(tasks, t, error.name);
    }
  }

  lemma KeepMounts(tasks: seq<Task>, t: Task, init: seq<Container>, containers: seq<Container>, a: seq<Container>, b: seq<Container>)
    requires MountedRight(tasks, init + containers) && t in tasks
    requires Kinds(a) == InitKindsOf(t) && Kinds(b) == MainKindsOf(t)
    requires forall c :: c in a + b && c.kind.Main? ==> RightMounts(tasks, t, c)
    ensures MountedRight(tasks, init + a + (containers + b))
  {
    forall c | c in init + a + (containers + b) && c.kind.Main?
      ensures exists x :: x in tasks && x.name == c.kind.task && RightMounts(tasks, x, c)
    {
      if c in a {
        var i :| 0 <= i < |a| && a[i] == c;
        assert Kinds(a)[i] == c.kind && c.kind in InitKindsOf(t);
        assert c in a + b;
      } else if c in b {
        var i :| 0 <= i < |b| && b[i] == c;
        assert Kinds(b)[i] == c.kind && c.kind in MainKindsOf(t);
        assert c in a + b;
      } else {
        assert c in init + containers;
      }
    }
  }

  // ----- The order in which the containers of one-shot tasks run -----

  lemma OwnKinds(t: Task)
    ensures forall k :: k in InitKindsOf(t) ==> k.task == t.name
    ensures forall i, j :: 0 <= i < j < |InitKindsOf(t)| ==> InitKindsOf(t)[i] != InitKindsOf(t)[j]
    ensures Main(t.name) in InitKindsOf(t) <==> t.taskType.Oneshot?
  {
    var env := if ToEnvironment in t.secrets then [SecretEnv(t.name)] else [];
    var files := SecretFiles(t.name, FileSecrets(t.secrets));
    if !t.taskType.Proxy? {
      var main := if t.taskType.Oneshot? then [Main(t.name)] else [];
      assert InitKindsOf(t) == env + files + main;
      assert SecretKinds(t) == env + files;
      if t.taskType.Oneshot? { assert InitKindsOf(t)[|env| + |files|] == Main(t.name); }
    }
  }

  lemma PrefixIndex(tasks: seq<Task>, name: string)
    requires DistinctNames(tasks) && tasks != [] && HasTask(tasks[..|tasks| - 1], name)
    ensures IndexByName(tasks, name) == IndexByName(tasks[..|tasks| - 1], name) < |tasks| - 1
  {
    IndexIsUnique(tasks, IndexByName(tasks[..|tasks| - 1], name));
  }

  lemma {:induction false} InitKindsHaveTasks(tasks: seq<Task>)
    ensures forall k :: k in InitKinds(tasks) ==> HasTask(tasks, k.task)
    ensures forall t :: t in tasks && t.taskType.Oneshot? ==> Main(t.name) in InitKinds(tasks)
  {
    if tasks != [] {
      var init, last := tasks[..|tasks| - 1], tasks[|tasks| - 1];
      InitKindsHaveTasks(init);
      OwnKinds(last);
      assert tasks == init + [last];
      forall k | k in InitKinds(tasks) ensures HasTask(tasks, k.task) {
        if k in InitKinds(init) {
          var i :| 0 <= i < |init| && init[i].name == k.task;
          assert tasks[i].name == k.task;
        } else {
          assert tasks[|tasks| - 1].name == k.task;
        }
      }
    }
  }

  /** Init containers stand in the order of their tasks, and none stands twice. */
  ghost predicate InTaskOrder(tasks: seq<Task>, kinds: seq<ContainerKind>) {
    forall a, b :: 0 <= a < b < |kinds| ==>
      kinds[a] != kinds[b] && IndexByName(tasks, kinds[a].task) <= IndexByName(tasks, kinds[b].task)
  }

  lemma {:induction false} InitKindsInOrder(tasks: seq<Task>)
    requires DistinctNames(tasks)
    ensures InTaskOrder(tasks, InitKinds(tasks))
  {
    if tasks != [] {
      var init, last := tasks[..|tasks| - 1], tasks[|tasks| - 1];
      InitKindsInOrder(init);
      InitKindsHaveTasks(init);
      OwnKinds(last);
      IndexIsUnique(tasks, |tasks| - 1);
      forall k | k in InitKinds(init) ensures IndexByName(tasks, k.task) == IndexByName(init, k.task) < |tasks| - 1 {
        PrefixIndex(tasks, k.task);
      }
      JoinOrders(tasks, init, InitKinds(init), InitKindsOf(last));
    }
  }

  lemma JoinOrders(tasks: seq<Task>, init: seq<Task>, front: seq<ContainerKind>, back: seq<ContainerKind>)
    requires InTaskOrder(init, front)
    requires forall k :: k in front ==> IndexByName(tasks, k.task) == IndexByName(init, k.task) < |tasks| - 1
    requires forall k :: k in back ==> IndexByName(tasks, k.task) == |tasks| - 1
    requires forall i, j :: 0 <= i < j < |back| ==> back[i] != back[j]
    ensures InTaskOrder(tasks, front + back)
  {
    var all := front + back;
    forall a, b | 0 <= a < b < |all|
      ensures all[a] != all[b] && IndexByName(tasks, all[a].task) <= IndexByName(tasks, all[b].task)
    {
      assert all[a] == if a < |front| then front[a] else back[a - |front|];
      assert all[b] == if b < |front| then front[b] else back[b - |front|];
      assert all[a] in front || all[a] in back;
      assert all[b] in front || all[b] in back;
    }
  }

  lemma {:induction false} NoServices(tasks: seq<Task>)
    requires forall t :: t in tasks ==> !t.taskType.Service?
    ensures MainKinds(tasks) == []
  {
    if tasks != [] {
      NoServices(tasks[..|tasks| - 1]);
      assert tasks[|tasks| - 1] in tasks;
    }
  }

  /**
  In a pod without service tasks everything runs one after the other, and no container of a task
  runs before the container of a one-shot task it has to come after.
  */
  lemma OneshotsRunInOrder(tasks: seq<Task>, spec: Spec, n: string, y: Task, a: nat, b: nat)
    requires DistinctNames(tasks) && AfterOrdered(tasks)
    requires forall t :: t in tasks ==> !t.taskType.Service?
    requires spec.RunOrder() == InitKinds(tasks) + MainKinds(tasks)
    requires y in tasks && n in y.after && n != y.name
    requires a < |spec.RunOrder()| && b < |spec.RunOrder()|
    requires spec.RunOrder()[a] == Main(n) && spec.RunOrder()[b].task == y.name
    ensures a < b
  {
    hide Spec.RunOrder, InitKinds, MainKinds, Kinds;
    NoServices(tasks);
    InitKindsInOrder(tasks);
    assert spec.RunOrder() == InitKinds(tasks);
    InitKindsHaveTasks(tasks);
    assert InitKinds(tasks)[a] in InitKinds(tasks);
    var i :| 0 <= i < |tasks| && tasks[i] == y;
    IndexIsUnique(tasks, i);
    assert IndexByName(tasks, n) <= i;
    IndexIsUnique(tasks, IndexByName(tasks, n));
  }

  // ----- Restart policy -----

  datatype RestartPolicy = Always | OnFailure

  method GetRestartPolicy(tasks: seq<Task>, requireAlways: bool) returns (policy: RestartPolicy)
    ensures policy == OnFailure <==>
              !requireAlways && (exists t :: t in tasks && t.taskType.Oneshot?) && (forall t :: t in tasks ==> !t.taskType.Service?)
  {
    if requireAlways { return Always; }
    var oneshots, services := 0, 0;
    for i := 0 to |tasks|
      invariant oneshots > 0 <==> exists t :: t in tasks[..i] && t.taskType.Oneshot?
      invariant services > 0 <==> exists t :: t in tasks[..i] && t.taskType.Service?
      invariant oneshots >= 0 && services >= 0
    {
      assert tasks[..i + 1] == tasks[..i] + [tasks[i]];
      if tasks[i].taskType.Oneshot? {
        oneshots := oneshots + 1;
      } else if tasks[i].taskType.Service? {
        services := services + 1;
      }
    }
    assert tasks[..|tasks|] == tasks;
    policy := if services == 0 && oneshots > 0 then OnFailure else Always;
  }
}
