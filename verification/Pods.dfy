/**
groupTaskIntoPods: collects the tasks of a task group into pods, such that tasks linked by
VolumesFrom or After end up in the same pod.
*/
module Pods {
  import opened Wrappers
  import opened Graph
  import opened Jobs
  import Strings
  import UnitNames

  datatype PodValue = PodValue(index: nat, name: string, tasks: seq<Task>)

  datatype PodError = TaskNotFound(name: string) | NoName | MixedNetworks | MixedTypes | TwoMetrics

  // ----- Names -----

  function Lower(c: char): char {
    if 'A' <= c <= 'Z' then c - 'A' + 'a' else c
  }

  /** The Kubernetes resource name of a name: slashes and underscores become dashes. */
  function ResourceName(fullName: string): string {
    seq(|fullName|, i requires 0 <= i < |fullName| =>
      if fullName[i] == '/' || fullName[i] == '_' then '-' else Lower(fullName[i]))
  }

  /** The task that came first in the job file, or -1 when no task has a place there. */
  function FirstTask(tasks: seq<Task>): (r: int)
    ensures -1 <= r < |tasks|
    ensures r >= 0 ==> tasks[r].originalIndex >= 0
    ensures forall i :: 0 <= i < |tasks| && tasks[i].originalIndex >= 0 ==> r >= 0 && tasks[r].originalIndex <= tasks[i].originalIndex
  {
    if tasks == [] then -1
    else
      var init := tasks[..|tasks| - 1];
      var r, last := FirstTask(init), tasks[|tasks| - 1].originalIndex;
      if last >= 0 && (r < 0 || last < tasks[r].originalIndex) then |tasks| - 1 else r
  }

  function PodName(group: string, tasks: seq<Task>): string {
    var first := FirstTask(tasks);
    if first < 0 then ResourceName(group) else ResourceName(group + "-" + tasks[first].name)
  }

  /** What becomes of a name made of valid names: letters and digits stay, and all between them becomes a dash. */
  lemma ResourceNameOf(s: string)
    requires forall i :: 0 <= i < |s| ==> UnitNames.IsNameChar(s[i]) || s[i] == '-' || s[i] == '/'
    ensures ResourceName(s) == Strings.ReplaceChar(Strings.ReplaceChar(s, '_', '-'), '/', '-')
  {
  }

  /** A task with the lowest index in the job file, where negative indexes mean that there is none. */
  ghost predicate IsFirst(tasks: seq<Task>, t: Task) {
    t in tasks && t.originalIndex >= 0 && forall x :: x in tasks && x.originalIndex >= 0 ==> t.originalIndex <= x.originalIndex
  }

  lemma FirstTaskIsFirst(tasks: seq<Task>)
    ensures FirstTask(tasks) >= 0 ==> IsFirst(tasks, tasks[FirstTask(tasks)])
    ensures FirstTask(tasks) >= 0 <==> exists t :: t in tasks && t.originalIndex >= 0
  {
    hide FirstTask;
  }

  method CreatePodName(group: string, tasks: seq<Task>) returns (name: string)
    ensures name == PodName(group, tasks)
    ensures (exists t :: t in tasks && t.originalIndex >= 0)
        ==> exists t :: IsFirst(tasks, t) && name == ResourceName(group + "-" + t.name)
    ensures (forall t :: t in tasks ==> t.originalIndex < 0) ==> name == ResourceName(group)
  {
    hide IsFirst, ResourceName;
    var lowest, taskName := -1, "";
    for i := 0 to |tasks|
      invariant lowest == (if FirstTask(tasks[..i]) < 0 then -1 else tasks[..i][FirstTask(tasks[..i])].originalIndex)
      invariant lowest >= 0 ==> FirstTask(tasks[..i]) >= 0 && taskName == tasks[..i][FirstTask(tasks[..i])].name
    {
      assert tasks[..i + 1][..i] == tasks[..i];
      var index := tasks[i].originalIndex;
      if index >= 0 && (lowest < 0 || index < lowest) {
        lowest, taskName := index, tasks[i].name;
      }
    }
    assert tasks[..|tasks|] == tasks;
    FirstTaskIsFirst(tasks);
    name := if lowest < 0 then ResourceName(group) else ResourceName(group + "-" + taskName);
  }

  // ----- Validation -----

  function Validate(name: string, tasks: seq<Task>): Option<PodError> {
    if name == "" then Some(NoName)
    else if exists i :: 0 <= i < |tasks| && tasks[i].network != tasks[0].network then Some(MixedNetworks)
    else if (exists i :: 0 <= i < |tasks| && tasks[i].taskType.Oneshot?) && (exists i :: 0 <= i < |tasks| && tasks[i].taskType.Service?)
    then Some(MixedTypes)
    else if exists i, j :: 0 <= i < j < |tasks| && tasks[i].hasMetrics && tasks[j].hasMetrics then Some(TwoMetrics)
    else None
  }

  method ValidatePod(name: string, tasks: seq<Task>) returns (error: Option<PodError>)
    ensures error == Validate(name, tasks)
  {
    if name == "" { return Some(NoName); }
    for i := 0 to |tasks|
      invariant forall k :: 0 <= k < i ==> tasks[k].network == tasks[0].network
    {
      if tasks[0].network != tasks[i].network { return Some(MixedNetworks); }
    }
    var oneshot, service := false, false;
    for i := 0 to |tasks|
      invariant oneshot <==> exists k :: 0 <= k < i && tasks[k].taskType.Oneshot?
      invariant service <==> exists k :: 0 <= k < i && tasks[k].taskType.Service?
    {
      oneshot := oneshot || tasks[i].taskType.Oneshot?;
      service := service || tasks[i].taskType.Service?;
    }
    if oneshot && service { return Some(MixedTypes); }
    var withMetrics := -1;
    for i := 0 to |tasks|
      invariant withMetrics < 0 ==> forall k :: 0 <= k < i ==> !tasks[k].hasMetrics
      invariant withMetrics >= 0 ==> withMetrics < i && tasks[withMetrics].hasMetrics
      invariant withMetrics >= 0 ==> forall k :: 0 <= k < i && k != withMetrics ==> !tasks[k].hasMetrics
    {
      if tasks[i].hasMetrics {
        if withMetrics >= 0 { return Some(TwoMetrics); }
        withMetrics := i;
      }
    }
    return None;
  }

  // ----- Grouping on values -----

  /** Which pod each task name is in, and what tasks each pod holds. */
  datatype Grouping = Grouping(podOf: map<string, nat>, members: seq<seq<Task>>)

  /** A task together with one it has to share a pod with. */
  type Link = (string, string)

  function LinksOf(t: Task): seq<Link> {
    LinksTo(t.name, t.volumesFrom) + LinksTo(t.name, t.after)
  }

  function LinksTo(name: string, others: seq<string>): (r: seq<Link>)
    ensures |r| == |others| && forall i :: 0 <= i < |r| ==> r[i] == (name, others[i])
  {
    seq(|others|, i requires 0 <= i < |others| => (name, others[i]))
  }

  function Links(tasks: seq<Task>): seq<Link> {
    if tasks == [] then [] else LinksOf(tasks[0]) + Links(tasks[1..])
  }

  /** One pod for each task. */
  function Singles(tasks: seq<Task>): (g: Grouping)
    ensures InRange(g)
  {
    Grouping(map n | HasTask(tasks, n) && n in NamesOf(tasks) :: IndexByName(tasks, n) as nat,
             seq(|tasks|, i requires 0 <= i < |tasks| => [tasks[i]]))
  }

  function NamesOf(tasks: seq<Task>): (names: set<string>)
    ensures forall n :: n in names <==> HasTask(tasks, n)
  {
    var names := set i | 0 <= i < |tasks| :: tasks[i].name;
    names
  }

  predicate InRange(g: Grouping) {
    forall n :: n in g.podOf ==> g.podOf[n] < |g.members|
  }

  /** Puts the second task's pod into the first task's pod. */
  function Merge(g: Grouping, link: Link): (r: Result<Grouping, PodError>)
    requires InRange(g)
    ensures r.Ok? ==> InRange(r.value)
  {
    if link.0 !in g.podOf then Err(TaskNotFound(link.0))
    else if link.1 !in g.podOf then Err(TaskNotFound(link.1))
    else
      var p, q := g.podOf[link.0], g.podOf[link.1];
      if p == q then Ok(g)
      else Ok(Grouping(g.podOf + map n | n in NamesOf(g.members[q]) :: p,
                       g.members[p := g.members[p] + g.members[q]]))
  }

  /** A pod in use lists exactly the tasks that are in it, each once. */
  ghost predicate ValidGrouping(tasks: seq<Task>, g: Grouping) {
    && |g.members| == |tasks| && g.podOf.Keys == NamesOf(tasks) && InRange(g)
    && forall n :: n in g.podOf ==> Lists(tasks, g, g.podOf[n])
  }

  ghost predicate Lists(tasks: seq<Task>, g: Grouping, p: nat)
    requires p < |g.members| && g.podOf.Keys == NamesOf(tasks)
  {
    && DistinctNames(g.members[p])
    && forall t :: t in g.members[p] <==> t in tasks && t.name in g.podOf && g.podOf[t.name] == p
  }

  lemma NameInPod(tasks: seq<Task>, g: Grouping, p: nat, n: string)
    requires p < |g.members| && g.podOf.Keys == NamesOf(tasks) && Lists(tasks, g, p)
    ensures n in NamesOf(g.members[p]) <==> n in g.podOf && g.podOf[n] == p
  {
    if i :| 0 <= i < |g.members[p]| && g.members[p][i].name == n {
      assert g.members[p][i] in g.members[p];
    }
    if n in g.podOf && g.podOf[n] == p {
      var i :| 0 <= i < |tasks| && tasks[i].name == n;
      assert tasks[i] in g.members[p];
      var k :| 0 <= k < |g.members[p]| && g.members[p][k] == tasks[i];
    }
  }

  /** Merging renames the second pod to the first. */
  lemma MergedPodOf(tasks: seq<Task>, g: Grouping, link: Link)
    requires ValidGrouping(tasks, g) && Merge(g, link).Ok?
    ensures var r, p, q := Merge(g, link).value, g.podOf[link.0], g.podOf[link.1];
            && r.podOf.Keys == g.podOf.Keys && |r.members| == |g.members|
            && forall n :: n in g.podOf ==> r.podOf[n] == if g.podOf[n] == q then p else g.podOf[n]
  {
    hide Lists, HasTask;
    var q := g.podOf[link.1];
    forall n ensures n in NamesOf(g.members[q]) <==> n in g.podOf && g.podOf[n] == q {
      NameInPod(tasks, g, q, n);
    }
  }

  /** Merges for all links in turn, up to the first that names an unknown task. */
  function MergeFrom(g: Grouping, links: seq<Link>): (r: Result<Grouping, PodError>)
    requires InRange(g)
    ensures r.Ok? ==> InRange(r.value)
    decreases |links|
  {
    if links == [] then Ok(g)
    else
      match Merge(g, links[0])
      case Err(e) => Err(e)
      case Ok(next) => MergeFrom(next, links[1..])
  }

  /** The grouping of a list of tasks by their links. */
  function GroupingOf(tasks: seq<Task>): Result<Grouping, PodError> {
    MergeFrom(Singles(tasks), Links(tasks))
  }

  lemma {:induction false} MergeFromAppend(g: Grouping, a: seq<Link>, b: seq<Link>)
    requires InRange(g)
    ensures MergeFrom(g, a + b) == match MergeFrom(g, a) case Err(e) => Err(e) case Ok(next) => MergeFrom(next, b)
    decreases |a|
  {
    if a == [] {
      assert a + b == b;
    } else {
      assert (a + b)[1..] == a[1..] + b;
      if Merge(g, a[0]).Ok? { MergeFromAppend(Merge(g, a[0]).value, a[1..], b); }
    }
  }

  lemma {:induction false} MergeFromValid(tasks: seq<Task>, g: Grouping, links: seq<Link>)
    requires DistinctNames(tasks) && ValidGrouping(tasks, g) && InRange(g)
    ensures MergeFrom(g, links).Ok? ==> ValidGrouping(tasks, MergeFrom(g, links).value)
    decreases |links|
  {
    if links != [] && Merge(g, links[0]).Ok? {
      MergeValid(tasks, g, links[0]);
      MergeFromValid(tasks, Merge(g, links[0]).value, links[1..]);
    }
  }

  lemma GroupingValid(tasks: seq<Task>)
    requires DistinctNames(tasks) && GroupingOf(tasks).Ok?
    ensures ValidGrouping(tasks, GroupingOf(tasks).value)
  {
    SinglesValid(tasks);
    MergeFromValid(tasks, Singles(tasks), Links(tasks));
  }

  lemma SinglesValid(tasks: seq<Task>)
    requires DistinctNames(tasks)
    ensures ValidGrouping(tasks, Singles(tasks))
  {
    var g := Singles(tasks);
    assert g.podOf.Keys == NamesOf(tasks);
    forall n | n in g.podOf ensures Lists(tasks, g, g.podOf[n]) {
      var p := g.podOf[n];
      forall t ensures t in [tasks[p]] <==> t in tasks && t.name in g.podOf && g.podOf[t.name] == p {
        IndexIsUnique(tasks, p);
        if t in tasks {
          var i :| 0 <= i < |tasks| && tasks[i] == t;
          IndexIsUnique(tasks, i);
        }
      }
    }
  }

  lemma MergeValid(tasks: seq<Task>, g: Grouping, link: Link)
    requires DistinctNames(tasks) && ValidGrouping(tasks, g)
    ensures Merge(g, link).Ok? ==> ValidGrouping(tasks, Merge(g, link).value)
  {
    if link.0 in g.podOf && link.1 in g.podOf && g.podOf[link.0] != g.podOf[link.1] {
      var r, p, q := Merge(g, link).value, g.podOf[link.0], g.podOf[link.1];
      MergedPodOf(tasks, g, link);
      forall n | n in r.podOf ensures r.podOf[n] < |tasks| && Lists(tasks, r, r.podOf[n]) {
        if r.podOf[n] == p {
          MergedLists(tasks, g, r, p, q);
        } else {
          assert Lists(tasks, g, g.podOf[n]);
        }
      }
    }
  }

  lemma MergedLists(tasks: seq<Task>, g: Grouping, r: Grouping, p: nat, q: nat)
    requires p < |g.members| && q < |g.members| && p != q
    requires g.podOf.Keys == NamesOf(tasks) && Lists(tasks, g, p) && Lists(tasks, g, q)
    requires r.podOf.Keys == g.podOf.Keys && r.members == g.members[p := g.members[p] + g.members[q]]
    requires forall n :: n in g.podOf ==> r.podOf[n] == if g.podOf[n] == q then p else g.podOf[n]
    ensures Lists(tasks, r, p)
  {
    var a, b := g.members[p], g.members[q];
    forall i, j | 0 <= i < |a| && 0 <= j < |b| ensures a[i].name != b[j].name {
      assert a[i] in a && b[j] in b;
    }
    forall i, j | 0 <= i < j < |a + b| ensures (a + b)[i].name != (a + b)[j].name {
      assert (a + b)[i] == if i < |a| then a[i] else b[i - |a|];
      assert (a + b)[j] == if j < |a| then a[j] else b[j - |a|];
    }
    forall t ensures t in a + b <==> t in tasks && t.name in r.podOf && r.podOf[t.name] == p {
      assert t in a + b <==> t in a || t in b;
    }
  }

  // ----- Pods are connected components -----

  ghost function LinkEdges(tasks: seq<Task>): Edges {
    set l | l in Links(tasks)
  }

  /** Tasks share a pod only when they are connected. */
  ghost predicate Sound(g: Grouping, edges: Edges) {
    forall m, n :: m in g.podOf && n in g.podOf && g.podOf[m] == g.podOf[n] ==> Reaches(Undirected(edges), m, n)
  }

  predicate SamePod(g: Grouping, link: Link) {
    link.0 in g.podOf && link.1 in g.podOf && g.podOf[link.0] == g.podOf[link.1]
  }

  /** Linked tasks share a pod. */
  ghost predicate Complete(g: Grouping, links: seq<Link>) {
    forall i :: 0 <= i < |links| ==> SamePod(g, links[i])
  }

  lemma MergeSound(tasks: seq<Task>, g: Grouping, link: Link, edges: Edges)
    requires ValidGrouping(tasks, g) && Sound(g, edges) && link in edges && Merge(g, link).Ok?
    ensures Sound(Merge(g, link).value, edges)
  {
    var r, p, q := Merge(g, link).value, g.podOf[link.0], g.podOf[link.1];
    MergedPodOf(tasks, g, link);
    EdgeReaches(Undirected(edges), link.0, link.1);
    UndirectedSymmetric(edges, link.0, link.1);
    forall m, n | m in r.podOf && n in r.podOf && r.podOf[m] == r.podOf[n] ensures Reaches(Undirected(edges), m, n) {
      if g.podOf[m] != g.podOf[n] {
        if g.podOf[m] == p {
          Through(edges, m, link.0, link.1, n);
        } else {
          Through(edges, m, link.1, link.0, n);
        }
      }
    }
  }

  lemma Through(edges: Edges, a: string, b: string, c: string, d: string)
    requires Reaches(Undirected(edges), a, b) && Reaches(Undirected(edges), b, c) && Reaches(Undirected(edges), c, d)
    ensures Reaches(Undirected(edges), a, d)
  {
    ReachesTransitive(Undirected(edges), a, b, c);
    ReachesTransitive(Undirected(edges), a, c, d);
  }

  lemma MergeKeepsPair(tasks: seq<Task>, g: Grouping, link: Link, pair: Link)
    requires ValidGrouping(tasks, g) && Merge(g, link).Ok? && (SamePod(g, pair) || pair == link)
    ensures SamePod(Merge(g, link).value, pair)
  {
    MergedPodOf(tasks, g, link);
  }

  lemma {:induction false} MergeFromKeepsPair(tasks: seq<Task>, g: Grouping, links: seq<Link>, pair: Link)
    requires DistinctNames(tasks) && ValidGrouping(tasks, g) && SamePod(g, pair) && MergeFrom(g, links).Ok?
    ensures SamePod(MergeFrom(g, links).value, pair)
    decreases |links|
  {
    if links != [] {
      MergeValid(tasks, g, links[0]);
      MergeKeepsPair(tasks, g, links[0], pair);
      MergeFromKeepsPair(tasks, Merge(g, links[0]).value, links[1..], pair);
    }
  }

  lemma SinglesSound(tasks: seq<Task>, edges: Edges)
    requires DistinctNames(tasks)
    ensures Sound(Singles(tasks), edges)
  {
    var g := Singles(tasks);
    forall m, n | m in g.podOf && n in g.podOf && g.podOf[m] == g.podOf[n] ensures Reaches(Undirected(edges), m, n) {
      assert m == tasks[g.podOf[m]].name && n == tasks[g.podOf[n]].name;
      ReachesSelf(Undirected(edges), m);
    }
  }

  lemma {:induction false} MergeFromSound(tasks: seq<Task>, g: Grouping, links: seq<Link>, edges: Edges)
    requires DistinctNames(tasks) && ValidGrouping(tasks, g) && Sound(g, edges) && MergeFrom(g, links).Ok?
    requires forall i :: 0 <= i < |links| ==> links[i] in edges
    ensures Sound(MergeFrom(g, links).value, edges)
    decreases |links|
  {
    hide Lists, Sound, Merge, DistinctNames;
    if links != [] {
      MergeValid(tasks, g, links[0]);
      MergeSound(tasks, g, links[0], edges);
      MergeFromSound(tasks, Merge(g, links[0]).value, links[1..], edges);
    }
  }

  lemma {:induction false} MergeFromComplete(tasks: seq<Task>, g: Grouping, links: seq<Link>)
    requires DistinctNames(tasks) && ValidGrouping(tasks, g) && MergeFrom(g, links).Ok?
    ensures Complete(MergeFrom(g, links).value, links)
    decreases |links|
  {
    hide Lists, Merge, DistinctNames, SamePod;
    if links != [] {
      var next := Merge(g, links[0]).value;
      MergeValid(tasks, g, links[0]);
      MergeKeepsPair(tasks, g, links[0], links[0]);
      MergeFromKeepsPair(tasks, next, links[1..], links[0]);
      MergeFromComplete(tasks, next, links[1..]);
      forall i | 0 <= i < |links| ensures SamePod(MergeFrom(g, links).value, links[i]) {
        if i > 0 { assert links[i] == links[1..][i - 1]; }
      }
    }
  }

  /** Two tasks end up in the same pod if and only if links connect them. */
  lemma GroupsAreComponents(tasks: seq<Task>, m: string, n: string)
    requires DistinctNames(tasks) && GroupingOf(tasks).Ok? && HasTask(tasks, m) && HasTask(tasks, n)
    ensures var g := GroupingOf(tasks).value;
            && m in g.podOf && n in g.podOf
            && (g.podOf[m] == g.podOf[n] <==> Reaches(Undirected(LinkEdges(tasks)), m, n))
  {
    var links, edges := Links(tasks), LinkEdges(tasks);
    EdgesOf(links, edges);
    SinglesValid(tasks);
    SinglesSound(tasks, edges);
    MergeFromSound(tasks, Singles(tasks), links, edges);
    MergeFromComplete(tasks, Singles(tasks), links);
    GroupingValid(tasks);
    ShareIffConnected(GroupingOf(tasks).value, links, edges, m, n);
  }

  lemma EdgesOf(links: seq<Link>, edges: Edges)
    requires edges == (set l | l in links)
    ensures forall i :: 0 <= i < |links| ==> links[i] in edges
  {
  }

  lemma ShareIffConnected(g: Grouping, links: seq<Link>, edges: Edges, m: string, n: string)
    requires Sound(g, edges) && Complete(g, links) && edges == (set l | l in links)
    requires m in g.podOf && n in g.podOf
    ensures g.podOf[m] == g.podOf[n] <==> Reaches(Undirected(edges), m, n)
  {
    if Reaches(Undirected(edges), m, n) {
      ConnectedShare(g, links, edges, m, n);
    }
  }

  lemma ConnectedShare(g: Grouping, links: seq<Link>, edges: Edges, m: string, n: string)
    requires Complete(g, links) && edges == (set l | l in links)
    requires m in g.podOf && Reaches(Undirected(edges), m, n)
    ensures n in g.podOf && g.podOf[m] == g.podOf[n]
  {
    var mates := set x | x in g.podOf && g.podOf[x] == g.podOf[m];
    forall a, b | (a, b) in Undirected(edges) && a in mates ensures b in mates {
      if (a, b) in edges {
        var i :| 0 <= i < |links| && links[i] == (a, b);
        assert SamePod(g, links[i]);
      } else {
        var i :| 0 <= i < |links| && links[i] == (b, a);
        assert SamePod(g, links[i]);
      }
    }
    ReachableStaysInside(Undirected(edges), m, n, mates);
  }

  predicate AllKnown(tasks: seq<Task>, links: seq<Link>) {
    forall i :: 0 <= i < |links| ==> HasTask(tasks, links[i].1)
  }

  lemma {:induction false} MergeFromFails(tasks: seq<Task>, g: Grouping, links: seq<Link>)
    requires DistinctNames(tasks) && ValidGrouping(tasks, g)
    requires forall i :: 0 <= i < |links| ==> HasTask(tasks, links[i].0)
    ensures MergeFrom(g, links).Ok? <==> AllKnown(tasks, links)
    ensures MergeFrom(g, links).Err? ==>
              MergeFrom(g, links).error.TaskNotFound? && !HasTask(tasks, MergeFrom(g, links).error.name)
    decreases |links|
  {
    hide Lists, HasTask, DistinctNames;
    if links != [] {
      var first, rest := links[0], links[1..];
      MergeFails(tasks, g, first);
      AllKnownCons(tasks, first, rest);
      assert links == [first] + rest;
      if HasTask(tasks, first.1) {
        MergeValid(tasks, g, first);
        MergeFromFails(tasks, Merge(g, first).value, rest);
        assert MergeFrom(g, links) == MergeFrom(Merge(g, first).value, rest);
      }
    }
  }

  lemma AllKnownCons(tasks: seq<Task>, first: Link, rest: seq<Link>)
    ensures AllKnown(tasks, [first] + rest) <==> HasTask(tasks, first.1) && AllKnown(tasks, rest)
  {
    var links := [first] + rest;
    assert forall i :: 0 <= i < |rest| ==> rest[i] == links[i + 1];
    assert links[0] == first;
  }

  lemma MergeFails(tasks: seq<Task>, g: Grouping, link: Link)
    requires ValidGrouping(tasks, g) && HasTask(tasks, link.0)
    ensures Merge(g, link).Ok? <==> HasTask(tasks, link.1)
    ensures Merge(g, link).Err? ==> Merge(g, link).error == TaskNotFound(link.1)
  {
    assert link.0 in NamesOf(tasks) && (link.1 in NamesOf(tasks) <==> HasTask(tasks, link.1));
  }

  /** Grouping fails exactly when a task that is linked to does not exist. */
  lemma GroupingFails(tasks: seq<Task>)
    requires DistinctNames(tasks)
    ensures GroupingOf(tasks).Ok? <==> forall t :: t in tasks ==> LinksExist(tasks, t)
    ensures GroupingOf(tasks).Err? ==>
              GroupingOf(tasks).error.TaskNotFound? && !HasTask(tasks, GroupingOf(tasks).error.name)
  {
    var links := Links(tasks);
    LinksAre(tasks);
    SinglesValid(tasks);
    forall i | 0 <= i < |links| ensures HasTask(tasks, links[i].0) {
      assert links[i] in links;
      var t :| t in tasks && links[i].0 == t.name;
      var k :| 0 <= k < |tasks| && tasks[k] == t;
    }
    MergeFromFails(tasks, Singles(tasks), links);
    LinksExistAll(tasks, links);
  }

  lemma LinksExistAll(tasks: seq<Task>, links: seq<Link>)
    requires forall l :: l in links <==> exists t :: t in tasks && l.0 == t.name && (l.1 in t.volumesFrom || l.1 in t.after)
    ensures (forall i :: 0 <= i < |links| ==> HasTask(tasks, links[i].1)) <==> forall t :: t in tasks ==> LinksExist(tasks, t)
  {
    if forall i :: 0 <= i < |links| ==> HasTask(tasks, links[i].1) {
      forall t, n | t in tasks && (n in t.volumesFrom || n in t.after) ensures HasTask(tasks, n) {
        assert (t.name, n) in links;
        var i :| 0 <= i < |links| && links[i] == (t.name, n);
        assert HasTask(tasks, links[i].1);
      }
    } else {
      var i :| 0 <= i < |links| && !HasTask(tasks, links[i].1);
      assert links[i] in links;
      var t :| t in tasks && links[i].0 == t.name && (links[i].1 in t.volumesFrom || links[i].1 in t.after);
      assert !LinksExist(tasks, t);
    }
  }

  lemma {:induction false} LinksAre(tasks: seq<Task>)
    ensures forall l :: l in Links(tasks) <==> exists t :: t in tasks && l.0 == t.name && (l.1 in t.volumesFrom || l.1 in t.after)
  {
    if tasks != [] {
      var head, rest := tasks[0], tasks[1..];
      LinksAre(rest);
      assert tasks == [head] + rest;
      forall l ensures l in LinksOf(head) <==> l.0 == head.name && (l.1 in head.volumesFrom || l.1 in head.after) {
        LinksToAre(head.name, head.volumesFrom, l);
        LinksToAre(head.name, head.after, l);
      }
    }
  }

  lemma LinksToAre(name: string, others: seq<string>, l: Link)
    ensures l in LinksTo(name, others) <==> l.0 == name && l.1 in others
  {
    if l.0 == name && l.1 in others {
      var i :| 0 <= i < |others| && others[i] == l.1;
      assert LinksTo(name, others)[i] == l;
    }
  }

  lemma LinkedTasksShare(tasks: seq<Task>, t: Task, n: string)
    requires DistinctNames(tasks) && GroupingOf(tasks).Ok? && t in tasks && (n in t.volumesFrom || n in t.after)
    ensures SamePod(GroupingOf(tasks).value, (t.name, n))
  {
    LinksAre(tasks);
    SinglesValid(tasks);
    MergeFromComplete(tasks, Singles(tasks), Links(tasks));
    assert (t.name, n) in Links(tasks);
    var i :| 0 <= i < |Links(tasks)| && Links(tasks)[i] == (t.name, n);
  }
}
