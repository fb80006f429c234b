/**
Finite directed graphs given by their set of edges: paths, reachability, cycles and ranks.
The orders that J2 builds (tasks inside a pod, units of a task group) are all stated with them.
*/
module Graph {

  type Edges = set<(string, string)>

  ghost predicate IsPath(edges: Edges, path: seq<string>) {
    |path| > 0 && forall i :: 0 <= i < |path| - 1 ==> (path[i], path[i + 1]) in edges
  }

  ghost predicate Connects(edges: Edges, path: seq<string>, x: string, y: string) {
    IsPath(edges, path) && path[0] == x && path[|path| - 1] == y
  }

  ghost predicate Reaches(edges: Edges, x: string, y: string) {
    exists path: seq<string> :: Connects(edges, path, x, y)
  }

  /** A closed walk along at least one edge. */
  ghost predicate IsCycle(edges: Edges, path: seq<string>) {
    |path| >= 2 && IsPath(edges, path) && path[0] == path[|path| - 1]
  }

  ghost predicate Acyclic(edges: Edges) {
    forall path: seq<string> :: !IsCycle(edges, path)
  }

  /** `rank` decreases along every edge. */
  ghost predicate Ranked(edges: Edges, rank: map<string, int>) {
    forall a, b :: (a, b) in edges ==> a in rank && b in rank && rank[b] < rank[a]
  }

  ghost function Inverse(edges: Edges): Edges {
    set e | e in edges :: (e.1, e.0)
  }

  /** The edges walked in either direction. */
  ghost function Undirected(edges: Edges): Edges {
    edges + Inverse(edges)
  }

  ghost function Nodes(edges: Edges): set<string> {
    (set e | e in edges :: e.0) + (set e | e in edges :: e.1)
  }

  lemma ReachesSelf(edges: Edges, x: string)
    ensures Reaches(edges, x, x)
  {
    assert Connects(edges, [x], x, x);
  }

  lemma ReachesTransitive(edges: Edges, x: string, y: string, z: string)
    requires Reaches(edges, x, y) && Reaches(edges, y, z)
    ensures Reaches(edges, x, z)
  {
    var p: seq<string> :| Connects(edges, p, x, y);
    var q: seq<string> :| Connects(edges, q, y, z);
    var r := p + q[1..];
    forall i | 0 <= i < |r| - 1 ensures (r[i], r[i + 1]) in edges {
      if i < |p| - 1 {
        assert (p[i], p[i + 1]) in edges;
      } else {
        var k := i - (|p| - 1);
        assert r[i] == q[k] && r[i + 1] == q[k + 1];
        assert (q[k], q[k + 1]) in edges;
      }
    }
    assert Connects(edges, r, x, z);
  }

  lemma EdgeReaches(edges: Edges, x: string, y: string)
    requires (x, y) in edges
    ensures Reaches(edges, x, y)
  {
    assert Connects(edges, [x, y], x, y);
  }

  lemma StepReaches(edges: Edges, x: string, y: string, z: string)
    requires Reaches(edges, x, y) && (y, z) in edges
    ensures Reaches(edges, x, z)
  {
    EdgeReaches(edges, y, z);
    ReachesTransitive(edges, x, y, z);
  }

  lemma AcyclicMonotone(small: Edges, big: Edges)
    requires small <= big && Acyclic(big)
    ensures Acyclic(small)
  {
    forall p: seq<string> | IsCycle(small, p) ensures false {
      assert IsCycle(big, p);
    }
  }

  /** Edges that start where no edge ends close no cycle. */
  lemma SourcesKeepAcyclic(edges: Edges, more: Edges, sources: set<string>)
    requires forall e :: e in more ==> e.0 in sources
    requires forall a, b :: b in sources ==> (a, b) !in edges + more
    ensures Acyclic(edges + more) <==> Acyclic(edges)
  {
    if Acyclic(edges + more) { AcyclicMonotone(edges, edges + more); }
    if Acyclic(edges) {
      forall p: seq<string> | IsCycle(edges + more, p) ensures false {
        forall i | 0 <= i < |p| ensures p[i] !in sources {
          var before := if i == 0 then |p| - 2 else i - 1;
          assert (p[before], p[before + 1]) in edges + more;
        }
        forall i | 0 <= i < |p| - 1 ensures (p[i], p[i + 1]) in edges {
          var e := (p[i], p[i + 1]);
          assert e in edges + more && e.0 !in sources;
        }
        assert IsCycle(edges, p);
      }
    }
  }

  lemma UndirectedSymmetric(edges: Edges, x: string, y: string)
    requires Reaches(Undirected(edges), x, y)
    ensures Reaches(Undirected(edges), y, x)
  {
    var p: seq<string> :| Connects(Undirected(edges), p, x, y);
    var n := |p|;
    var r := seq(n, i requires 0 <= i < n => p[n - 1 - i]);
    forall i | 0 <= i < n - 1 ensures (r[i], r[i + 1]) in Undirected(edges) {
      assert (p[n - 2 - i], p[n - 1 - i]) in Undirected(edges);
      assert r[i] == p[n - 1 - i] && r[i + 1] == p[n - 2 - i];
      if (r[i + 1], r[i]) in edges {
        assert (r[i], r[i + 1]) in Inverse(edges);
      }
    }
    assert Connects(Undirected(edges), r, y, x);
  }

  /** A property kept by every edge is kept along every path. */
  lemma {:induction false} PathKeeps(edges: Edges, path: seq<string>, inside: set<string>)
    requires IsPath(edges, path) && path[0] in inside
    requires forall a, b :: (a, b) in edges && a in inside ==> b in inside
    ensures forall i :: 0 <= i < |path| ==> path[i] in inside
  {
    if |path| > 1 {
      assert (path[0], path[1]) in edges;
      var rest := path[1..];
      forall i | 0 <= i < |rest| - 1 ensures (rest[i], rest[i + 1]) in edges {
        assert (path[i + 1], path[i + 2]) in edges;
      }
      PathKeeps(edges, rest, inside);
      forall i | 0 <= i < |path| ensures path[i] in inside {
        if i > 0 { assert path[i] == rest[i - 1]; }
      }
    }
  }

  lemma ReachableStaysInside(edges: Edges, x: string, y: string, inside: set<string>)
    requires Reaches(edges, x, y) && x in inside
    requires forall a, b :: (a, b) in edges && a in inside ==> b in inside
    ensures y in inside
  {
    var p: seq<string> :| Connects(edges, p, x, y);
    PathKeeps(edges, p, inside);
  }

  /** A walk of at least one edge descends in every ranking. */
  lemma {:induction false} RankDescends(edges: Edges, rank: map<string, int>, path: seq<string>)
    requires Ranked(edges, rank) && IsPath(edges, path) && |path| >= 2
    ensures path[0] in rank && path[|path| - 1] in rank && rank[path[|path| - 1]] < rank[path[0]]
  {
    assert (path[0], path[1]) in edges;
    if |path| > 2 {
      var rest := path[1..];
      forall i | 0 <= i < |rest| - 1 ensures (rest[i], rest[i + 1]) in edges {
        assert (path[i + 1], path[i + 2]) in edges;
      }
      RankDescends(edges, rank, rest);
    }
  }

  lemma RankedIsAcyclic(edges: Edges, rank: map<string, int>)
    requires Ranked(edges, rank)
    ensures Acyclic(edges)
  {
    forall p: seq<string> | IsCycle(edges, p) ensures false {
      RankDescends(edges, rank, p);
    }
  }

  /** The nodes reachable from `x`. */
  ghost function Reach(edges: Edges, x: string): set<string> {
    set y | y in Nodes(edges) + {x} && Reaches(edges, x, y)
  }

  lemma SmallerSubset(a: set<string>, b: set<string>)
    requires a < b
    ensures |a| < |b|
  {
    assert b == a + (b - a);
    var x :| x in b - a;
    assert |b - a| > 0;
    assert |b| == |a| + |b - a|;
  }

  lemma EdgeShrinksReach(edges: Edges, a: string, b: string)
    requires Acyclic(edges) && (a, b) in edges
    ensures |Reach(edges, b)| < |Reach(edges, a)|
  {
    ReachesSelf(edges, a);
    EdgeReaches(edges, a, b);
    assert b in Nodes(edges) by { assert (a, b).1 == b; }
    forall y | y in Reach(edges, b) ensures y in Reach(edges, a) {
      ReachesTransitive(edges, a, b, y);
    }
    if a in Reach(edges, b) {
      var p: seq<string> :| Connects(edges, p, b, a);
      var q := [a] + p;
      forall i | 0 <= i < |q| - 1 ensures (q[i], q[i + 1]) in edges {
        if i > 0 { assert (p[i - 1], p[i]) in edges; }
      }
      assert IsCycle(edges, q);
    }
    assert a in Reach(edges, a) && a !in Reach(edges, b);
    SmallerSubset(Reach(edges, b), Reach(edges, a));
  }

  /** A finite graph without cycles has a ranking: count what each node reaches. */
  lemma AcyclicHasRank(edges: Edges) returns (rank: map<string, int>)
    requires Acyclic(edges)
    ensures Ranked(edges, rank) && rank.Keys == Nodes(edges)
    ensures forall x :: x in rank ==> rank[x] >= 0
  {
    rank := map x | x in Nodes(edges) :: |Reach(edges, x)|;
    forall a, b | (a, b) in edges ensures a in rank && b in rank && rank[b] < rank[a] {
      assert (a, b).0 == a && (a, b).1 == b;
      EdgeShrinksReach(edges, a, b);
    }
  }
}
