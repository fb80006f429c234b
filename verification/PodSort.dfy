/**
pod.sortTasks: orders the tasks of a pod by swapping, so that every task comes after the tasks it
names in After. The loop ends exactly when After has no cycle through two or more tasks.
*/
module PodSort {
  import opened Graph
  import opened Jobs

  ghost predicate SameMembers(a: seq<Task>, b: seq<Task>) {
    |a| == |b| && forall t :: t in a <==> t in b
  }

  /** The After relation inside a list of tasks; a task naming itself is ignored. */
  ghost function AfterEdges(tasks: seq<Task>): Edges {
    set t, n | t in tasks && n in t.after && n != t.name && HasTask(tasks, n) :: (t.name, n)
  }

  lemma SameMembersSameEdges(a: seq<Task>, b: seq<Task>)
    requires SameMembers(a, b)
    ensures AfterEdges(a) == AfterEdges(b)
  {
    forall n ensures HasTask(a, n) <==> HasTask(b, n) {
      if i :| 0 <= i < |a| && a[i].name == n { assert a[i] in b; }
      if i :| 0 <= i < |b| && b[i].name == n { assert b[i] in a; }
    }
  }

  // ----- Sorting by name -----

  /** Byte-wise comparison of names. */
  predicate NameLess(a: string, b: string) {
    b != "" && (a == "" || a[0] < b[0] || (a[0] == b[0] && NameLess(a[1..], b[1..])))
  }

  lemma {:induction false} NameLessTotal(a: string, b: string)
    ensures a == b || NameLess(a, b) || NameLess(b, a)
  {
    if a != "" && b != "" {
      NameLessTotal(a[1..], b[1..]);
      assert a == [a[0]] + a[1..] && b == [b[0]] + b[1..];
    }
  }

  lemma {:induction false} NameLessTransitive(a: string, b: string, c: string)
    requires NameLess(a, b) && NameLess(b, c)
    ensures NameLess(a, c)
  {
    if a != "" && a[0] == b[0] && b[0] == c[0] {
      NameLessTransitive(a[1..], b[1..], c[1..]);
    }
  }

  ghost predicate SortedByName(tasks: seq<Task>) {
    forall i, j :: 0 <= i < j < |tasks| ==> NameLess(tasks[i].name, tasks[j].name)
  }

  function Insert(t: Task, tasks: seq<Task>): (r: seq<Task>)
    ensures multiset(r) == multiset([t]) + multiset(tasks)
  {
    if tasks == [] || NameLess(t.name, tasks[0].name) then [t] + tasks
    else
      assert tasks == [tasks[0]] + tasks[1..];
      [tasks[0]] + Insert(t, tasks[1..])
  }

  /** The library sort of a task list. */
  function SortByName(tasks: seq<Task>): (r: seq<Task>)
    ensures multiset(r) == multiset(tasks)
  {
    if tasks == [] then []
    else
      assert tasks == [tasks[0]] + tasks[1..];
      Insert(tasks[0], SortByName(tasks[1..]))
  }

  lemma {:induction false} InsertSorted(t: Task, tasks: seq<Task>)
    requires SortedByName(tasks) && forall i :: 0 <= i < |tasks| ==> tasks[i].name != t.name
    ensures SortedByName(Insert(t, tasks))
  {
    if tasks != [] {
      if NameLess(t.name, tasks[0].name) {
        forall j | 0 <= j < |tasks| ensures NameLess(t.name, tasks[j].name) {
          if j > 0 { NameLessTransitive(t.name, tasks[0].name, tasks[j].name); }
        }
      } else {
        NameLessTotal(t.name, tasks[0].name);
        InsertSorted(t, tasks[1..]);
        var rest := Insert(t, tasks[1..]);
        forall j | 0 <= j < |rest| ensures NameLess(tasks[0].name, rest[j].name) {
          assert rest[j] in multiset(rest);
          assert rest[j] == t || rest[j] in tasks[1..];
        }
      }
    }
  }

  lemma SameBag(a: seq<Task>, b: seq<Task>)
    requires multiset(a) == multiset(b)
    ensures SameMembers(a, b)
  {
    assert |a| == |multiset(a)| == |b|;
    forall t ensures t in a <==> t in b {
      assert t in multiset(a) <==> t in multiset(b);
    }
  }

  lemma {:induction false} SortByNameSorts(tasks: seq<Task>)
    requires DistinctNames(tasks)
    ensures SortedByName(SortByName(tasks))
  {
    if tasks != [] {
      SortByNameSorts(tasks[1..]);
      var rest := SortByName(tasks[1..]);
      SameBag(rest, tasks[1..]);
      forall i | 0 <= i < |rest| ensures rest[i].name != tasks[0].name {
        assert rest[i] in rest;
      }
      InsertSorted(tasks[0], rest);
    }
  }

  lemma SortedIsDistinct(tasks: seq<Task>)
    requires SortedByName(tasks)
    ensures DistinctNames(tasks)
  {
    forall i, j | 0 <= i < j < |tasks| ensures tasks[i].name != tasks[j].name {
      NotLessThanItself(tasks[i].name);
    }
  }

  lemma {:induction false} NotLessThanItself(a: string)
    ensures !NameLess(a, a)
  {
    if a != "" { NotLessThanItself(a[1..]); }
  }

  // ----- The loop -----

  datatype Sorting = Sorting(tasks: seq<Task>, i: nat) {
    predicate Done() { i >= |tasks| }
  }

  /** The place of the first of `names` whose task stands behind position i, or -1. */
  function Blocker(tasks: seq<Task>, i: nat, names: seq<string>): (r: int)
    ensures -1 <= r < |tasks| && (r >= 0 ==> r > i && tasks[r].name in names)
    ensures r < 0 <==> forall n :: n in names ==> IndexByName(tasks, n) <= i
  {
    if names == [] then -1
    else
      assert forall n :: n in names <==> n == names[0] || n in names[1..];
      if IndexByName(tasks, names[0]) > i then IndexByName(tasks, names[0])
    else Blocker(tasks, i, names[1..])
  }

  function Swap(tasks: seq<Task>, i: nat, j: nat): (r: seq<Task>)
    requires i < |tasks| && j < |tasks|
    ensures multiset(r) == multiset(tasks)
  {
    tasks[i := tasks[j]][j := tasks[i]]
  }

  /** One round of the loop: swap in a task that has to come first, or go on to the next place. */
  function Step(s: Sorting): Sorting {
    if s.Done() then s
    else
      var other := Blocker(s.tasks, s.i, s.tasks[s.i].after);
      if other >= 0 then Sorting(Swap(s.tasks, s.i, other), s.i) else Sorting(s.tasks, s.i + 1)
  }

  function Iterate(s: Sorting, rounds: nat): Sorting
    decreases rounds
  {
    if rounds == 0 then s else Iterate(Step(s), rounds - 1)
  }

  ghost predicate Halts(tasks: seq<Task>) {
    exists rounds: nat :: Iterate(Sorting(tasks, 0), rounds).Done()
  }

  /** Every task stands after the tasks it names in After, as far as they are in the list. */
  ghost predicate AfterOrdered(tasks: seq<Task>) {
    OrderedBefore(tasks, |tasks|)
  }

  ghost predicate OrderedBefore(tasks: seq<Task>, i: nat)
    requires i <= |tasks|
  {
    forall p, n :: 0 <= p < i && n in tasks[p].after ==> IndexByName(tasks, n) <= p
  }

  lemma SwapDistinct(tasks: seq<Task>, i: nat, j: nat)
    requires DistinctNames(tasks) && i < j < |tasks|
    ensures DistinctNames(Swap(tasks, i, j))
  {
    var r := Swap(tasks, i, j);
    forall p, q | 0 <= p < q < |r| ensures r[p].name != r[q].name {
      var p', q' := if p == i then j else if p == j then i else p, if q == i then j else if q == j then i else q;
      assert r[p] == tasks[p'] && r[q] == tasks[q'] && p' != q';
    }
  }

  lemma SwapKeeps(tasks: seq<Task>, i: nat, j: nat)
    requires DistinctNames(tasks) && i < j < |tasks|
    ensures DistinctNames(Swap(tasks, i, j)) && SameMembers(Swap(tasks, i, j), tasks)
    ensures forall n :: IndexByName(tasks, n) < i ==> IndexByName(Swap(tasks, i, j), n) == IndexByName(tasks, n)
  {
    var r := Swap(tasks, i, j);
    SwapDistinct(tasks, i, j);
    SameBag(r, tasks);
    forall n | IndexByName(tasks, n) < i ensures IndexByName(r, n) == IndexByName(tasks, n) {
      var p := IndexByName(tasks, n);
      if p >= 0 {
        assert r[p] == tasks[p];
        IndexIsUnique(r, p);
      } else {
        forall q | 0 <= q < |r| ensures r[q].name != n {
          assert r[q] in r;
        }
      }
    }
  }

  lemma StepKeeps(s: Sorting)
    requires DistinctNames(s.tasks) && s.i <= |s.tasks| && OrderedBefore(s.tasks, s.i)
    ensures DistinctNames(Step(s).tasks) && SameMembers(Step(s).tasks, s.tasks) && multiset(Step(s).tasks) == multiset(s.tasks)
    ensures Step(s).i <= |Step(s).tasks| && OrderedBefore(Step(s).tasks, Step(s).i)
  {
    if !s.Done() {
      var other := Blocker(s.tasks, s.i, s.tasks[s.i].after);
      if other >= 0 {
        SwapKeeps(s.tasks, s.i, other);
      }
    }
  }

  ghost function RankOf(rank: map<string, int>, name: string): int {
    if name in rank then rank[name] else 0
  }

  /** A round that swaps brings a task of lower rank to the current place. */
  lemma StepDescends(s: Sorting, rank: map<string, int>)
    requires DistinctNames(s.tasks) && !s.Done()
    requires Ranked(AfterEdges(s.tasks), rank)
    ensures Step(s).i == s.i + 1
         || (Step(s).i == s.i && RankOf(rank, Step(s).tasks[s.i].name) < RankOf(rank, s.tasks[s.i].name))
  {
    var t := s.tasks[s.i];
    var other := Blocker(s.tasks, s.i, t.after);
    if other >= 0 {
      var n := s.tasks[other].name;
      assert t in s.tasks && n in t.after && n != t.name && HasTask(s.tasks, n);
      assert (t.name, n) in AfterEdges(s.tasks);
    }
  }

  lemma {:induction false} HaltsFrom(s: Sorting, rank: map<string, int>) returns (rounds: nat)
    requires DistinctNames(s.tasks) && s.i <= |s.tasks| && OrderedBefore(s.tasks, s.i)
    requires Ranked(AfterEdges(s.tasks), rank) && forall n :: n in rank ==> rank[n] >= 0
    ensures Iterate(s, rounds).Done()
    decreases |s.tasks| - s.i, if s.Done() then 0 else RankOf(rank, s.tasks[s.i].name)
  {
    if s.Done() {
      rounds := 0;
    } else {
      StepKeeps(s);
      StepDescends(s, rank);
      SameMembersSameEdges(Step(s).tasks, s.tasks);
      rounds := HaltsFrom(Step(s), rank);
      rounds := rounds + 1;
    }
  }

  lemma {:induction false} IterateKeeps(s: Sorting, rounds: nat)
    requires DistinctNames(s.tasks) && s.i <= |s.tasks| && OrderedBefore(s.tasks, s.i)
    ensures var r := Iterate(s, rounds);
            && DistinctNames(r.tasks) && SameMembers(r.tasks, s.tasks) && multiset(r.tasks) == multiset(s.tasks)
            && r.i <= |r.tasks| && OrderedBefore(r.tasks, r.i)
    decreases rounds
  {
    if rounds > 0 {
      StepKeeps(s);
      IterateKeeps(Step(s), rounds - 1);
    }
  }

  lemma {:induction false} DoneStays(s: Sorting, rounds: nat)
    requires s.Done()
    ensures Iterate(s, rounds) == s
  {
    if rounds > 0 { DoneStays(s, rounds - 1); }
  }

  lemma {:induction false} IterateAdds(s: Sorting, m: nat, n: nat)
    ensures Iterate(s, m + n) == Iterate(Iterate(s, m), n)
    decreases m
  {
    hide Step;
    if m > 0 {
      IterateAdds(Step(s), m - 1, n);
    }
  }

  /** An order that respects After is a ranking: there is no cycle. */
  lemma OrderedIsAcyclic(tasks: seq<Task>)
    requires DistinctNames(tasks) && AfterOrdered(tasks)
    ensures Acyclic(AfterEdges(tasks))
  {
    hide Acyclic;
    var names := set t | t in tasks :: t.name;
    var place: map<string, int> := map n | n in names :: IndexByName(tasks, n);
    forall a, b | (a, b) in AfterEdges(tasks) ensures a in place && b in place && place[b] < place[a] {
      EdgeGoesBack(tasks, a, b);
    }
    RankedIsAcyclic(AfterEdges(tasks), place);
  }

  lemma EdgeGoesBack(tasks: seq<Task>, a: string, b: string)
    requires DistinctNames(tasks) && AfterOrdered(tasks) && (a, b) in AfterEdges(tasks)
    ensures a in (set t | t in tasks :: t.name) && b in (set t | t in tasks :: t.name)
    ensures IndexByName(tasks, b) < IndexByName(tasks, a)
  {
    var t :| t in tasks && b in t.after && b != t.name && HasTask(tasks, b) && a == t.name;
    var i :| 0 <= i < |tasks| && tasks[i] == t;
    hide AfterEdges, OrderedBefore;
    AfterIsEarlier(tasks, i, b);
    var j :| 0 <= j < |tasks| && tasks[j].name == b;
    assert tasks[j] in tasks;
  }

  lemma AfterIsEarlier(tasks: seq<Task>, i: nat, n: string)
    requires DistinctNames(tasks) && AfterOrdered(tasks) && i < |tasks|
    requires n in tasks[i].after && n != tasks[i].name && HasTask(tasks, n)
    ensures IndexByName(tasks, n) < IndexByName(tasks, tasks[i].name)
  {
    assert IndexByName(tasks, n) <= i;
    hide OrderedBefore;
    IndexIsUnique(tasks, i);
  }

  /**
  sortTasks comes to an end if and only if no cycle of After runs through two or more tasks of
  the pod. Nothing in the validation of a job excludes such a cycle.
  */
  lemma HaltsIffAcyclic(tasks: seq<Task>)
    requires DistinctNames(tasks)
    ensures Halts(tasks) <==> Acyclic(AfterEdges(tasks))
  {
    if Acyclic(AfterEdges(tasks)) {
      var rank := AcyclicHasRank(AfterEdges(tasks));
      var rounds := HaltsFrom(Sorting(tasks, 0), rank);
      assert Halts(tasks);
    }
    if Halts(tasks) {
      var rounds: nat :| Iterate(Sorting(tasks, 0), rounds).Done();
      IterateKeeps(Sorting(tasks, 0), rounds);
      var sorted := Iterate(Sorting(tasks, 0), rounds).tasks;
      OrderedIsAcyclic(sorted);
      SameMembersSameEdges(sorted, tasks);
    }
  }

  /** What sortTasks makes of a list of tasks. */
  ghost function SortedTasks(tasks: seq<Task>): seq<Task>
    requires Halts(SortByName(tasks))
  {
    var rounds: nat :| Iterate(Sorting(SortByName(tasks), 0), rounds).Done();
    Iterate(Sorting(SortByName(tasks), 0), rounds).tasks
  }

  lemma SortedTasksFrom(tasks: seq<Task>, rounds: nat)
    requires Iterate(Sorting(SortByName(tasks), 0), rounds).Done()
    ensures Halts(SortByName(tasks))
    ensures SortedTasks(tasks) == Iterate(Sorting(SortByName(tasks), 0), rounds).tasks
  {
    var s := Sorting(SortByName(tasks), 0);
    var other: nat :| Iterate(s, other).Done() && SortedTasks(tasks) == Iterate(s, other).tasks;
    IterateAdds(s, rounds, other);
    IterateAdds(s, other, rounds);
    DoneStays(Iterate(s, rounds), other);
    DoneStays(Iterate(s, other), rounds);
    assert rounds + other == other + rounds;
  }

  lemma SortHalts(tasks: seq<Task>)
    requires DistinctNames(tasks) && Acyclic(AfterEdges(tasks))
    ensures DistinctNames(SortByName(tasks)) && Halts(SortByName(tasks))
  {
    SortByNameSorts(tasks);
    SortedIsDistinct(SortByName(tasks));
    SameBag(SortByName(tasks), tasks);
    SameMembersSameEdges(SortByName(tasks), tasks);
    HaltsIffAcyclic(SortByName(tasks));
  }

  /** The tasks of a pod are rearranged, none lost or doubled, and each stands after its After tasks. */
  lemma SortedTasksCorrect(tasks: seq<Task>)
    requires DistinctNames(tasks) && Acyclic(AfterEdges(tasks))
    ensures Halts(SortByName(tasks))
    ensures multiset(SortedTasks(tasks)) == multiset(tasks)
    ensures DistinctNames(SortedTasks(tasks)) && AfterOrdered(SortedTasks(tasks))
  {
    SortHalts(tasks);
    var rounds: nat :| Iterate(Sorting(SortByName(tasks), 0), rounds).Done();
    SortedTasksFrom(tasks, rounds);
    IterateKeeps(Sorting(SortByName(tasks), 0), rounds);
  }

  // ----- The pod as an object -----

  class Pod {
    const index: nat
    var name: string
    var tasks: seq<Task>

    constructor (index: nat, t: Task)
      ensures this.index == index && name == "" && tasks == [t]
    {
      this.index := index;
      name := "";
      tasks := [t];
    }

    /** Swaps the task at place i with the first task it has to come after that stands behind it. */
    method MoveUp(i: nat) returns (moved: bool)
      requires i < |tasks|
      modifies this`tasks
      ensures Sorting(tasks, if moved then i else i + 1) == Step(Sorting(old(tasks), i))
    {
      var names := tasks[i].after;
      for k := 0 to |names|
        invariant tasks == old(tasks) && Blocker(tasks, i, names) == Blocker(tasks, i, names[k..])
      {
        assert names[k..][0] == names[k] && names[k..][1..] == names[k + 1..];
        var other := IndexByName(tasks, names[k]);
        if other > i {
          tasks := tasks[i := tasks[other]][other := tasks[i]];
          return true;
        }
      }
      return false;
    }

    method SortTasks()
      requires DistinctNames(tasks) && Acyclic(AfterEdges(tasks))
      modifies this`tasks
      ensures Halts(SortByName(old(tasks))) && tasks == SortedTasks(old(tasks))
    {
      ghost var rank := RankFor(tasks);
      ghost var rounds := 0;
      tasks := SortByName(tasks);
      ghost var start := Sorting(tasks, 0);
      var i := 0;
      while i < |tasks|
        invariant Sorting(tasks, i) == Iterate(start, rounds)
        invariant InRound(Sorting(tasks, i), rank)
        decreases |tasks| - i, if i < |tasks| then RankOf(rank, tasks[i].name) else 0
      {
        NextRound(start, rounds, rank);
        var moved := MoveUp(i);
        if !moved {
          i := i + 1;
        }
        rounds := rounds + 1;
      }
      SortedTasksFrom(old(tasks), rounds);
    }
  }

  /** What holds before each round: the places below i are settled, and ranks bound the swaps. */
  ghost predicate InRound(s: Sorting, rank: map<string, int>) {
    && s.i <= |s.tasks| && DistinctNames(s.tasks) && OrderedBefore(s.tasks, s.i)
    && Ranked(AfterEdges(s.tasks), rank) && (forall n :: n in rank ==> rank[n] >= 0)
  }

  lemma RankFor(tasks: seq<Task>) returns (rank: map<string, int>)
    requires DistinctNames(tasks) && Acyclic(AfterEdges(tasks))
    ensures InRound(Sorting(SortByName(tasks), 0), rank)
  {
    rank := AcyclicHasRank(AfterEdges(tasks));
    SortByNameSorts(tasks);
    SortedIsDistinct(SortByName(tasks));
    SameBag(SortByName(tasks), tasks);
    SameMembersSameEdges(SortByName(tasks), tasks);
  }

  lemma NextRound(start: Sorting, rounds: nat, rank: map<string, int>)
    requires InRound(Iterate(start, rounds), rank) && !Iterate(start, rounds).Done()
    ensures var s, next := Iterate(start, rounds), Step(Iterate(start, rounds));
            && Iterate(start, rounds + 1) == next && InRound(next, rank)
            && |next.tasks| == |s.tasks|
            && (next.i == s.i + 1 || (next.i == s.i && RankOf(rank, next.tasks[s.i].name) < RankOf(rank, s.tasks[s.i].name)))
  {
    var s := Iterate(start, rounds);
    StepKeeps(s);
    StepDescends(s, rank);
    SameMembersSameEdges(Step(s).tasks, s.tasks);
    IterateAdds(start, rounds, 1);
    assert Iterate(s, 1) == Iterate(Step(s), 0);
  }
}
