/** The array-based shortest path computation (src/dijkstra.c:71-138). */
module Dijkstra {
  import opened Graphs

  const GRAPHSIZE := 2048
  const INFINITY := GRAPHSIZE * GRAPHSIZE
  const PREV_HOP_NO := -1
  const NEXT_HOP_NO := -1

  lemma CellBound(n: nat, i: nat, j: nat)
    requires i < n && j < n
    ensures 0 <= i * n <= i * n + j < n * n
  {
    assert i * n + n <= n * n by {
      assert (i + 1) * n <= n * n;
    }
  }

  lemma CellInjective(n: nat, i: nat, j: nat, i': nat, j': nat)
    requires i < n && j < n && i' < n && j' < n && i * n + j == i' * n + j'
    ensures i == i' && j == j'
  {
    assert i < i' ==> (i + 1) * n <= i' * n;
    assert i' < i ==> (i' + 1) * n <= i * n;
  }

  /** Column j of line i in the flattened n by n matrix. */
  ghost function Cell(m: seq<int>, n: nat, i: nat, j: nat): int
    requires |m| == n * n && i < n && j < n
  {
    CellBound(n, i, j);
    m[i * n + j]
  }

  ghost predicate ZeroOne(m: seq<int>)
  {
    forall x :: 0 <= x < |m| ==> m[x] == 0 || m[x] == 1
  }

  /** The edges that the matrix stands for. */
  ghost function EdgesOf(m: seq<int>, n: nat): (g: Graph)
    requires |m| == n * n
    ensures forall i: nat, j: nat :: (i, j) in g <==> i < n && j < n && Cell(m, n, i, j) != 0
  {
    set i: nat, j: nat | i < n && j < n && Cell(m, n, i, j) != 0 :: (i, j)
  }

  /** `prev` is a shortest-path forest below `s` so far, all of whose inner nodes are in `done`. */
  ghost predicate Tree(g: Graph, s: nat, done: set<nat>, d: seq<int>, prev: seq<int>)
  {
    && |d| == |prev| && s < |d| && d[s] == 0 && prev[s] == PREV_HOP_NO
    && forall v :: 0 <= v < |d| && v != s ==>
                     || (d[v] == INFINITY && prev[v] == PREV_HOP_NO)
                     || (&& 0 <= prev[v] < |d| && prev[v] in done && (prev[v], v) in g
                         && 0 < d[v] < INFINITY && d[v] == d[prev[v]] + 1)
  }

  /** What holds between two rounds of the outer loop, `done` being the visited nodes. */
  ghost predicate RoundInv(g: Graph, s: nat, done: set<nat>, d: seq<int>, prev: seq<int>)
  {
    && Tree(g, s, done, d, prev)
    && (forall u :: u in done ==> u < |d|)
    && (forall v :: 0 <= v < |d| ==> d[v] == INFINITY || 0 <= d[v] <= |done|)
    && (forall u, w :: u in done && (u, w) in g && w < |d| ==> d[w] <= d[u] + 1)
    && (forall u, w :: u in done && 0 <= w < |d| && w !in done ==> d[u] <= d[w])
  }

  /** `d1`, `prev1` come from `d0`, `prev0` by relaxing the edges from `m` to nodes below `upto`. */
  ghost predicate Relaxed(g: Graph, m: nat, upto: nat, d0: seq<int>, prev0: seq<int>, d1: seq<int>, prev1: seq<int>)
  {
    && |d0| == |prev0| == |d1| == |prev1| && m < |d0|
    && forall j :: 0 <= j < |d0| ==>
                     if j < upto && (m, j) in g && d0[m] + 1 < d0[j]
                     then d1[j] == d0[m] + 1 && prev1[j] == m
                     else d1[j] == d0[j] && prev1[j] == prev0[j]
  }

  lemma FirstRound(g: Graph, s: nat, d: seq<int>, prev: seq<int>)
    requires |d| == |prev| && s < |d|
    requires forall v :: 0 <= v < |d| ==> d[v] == (if v == s then 0 else INFINITY) && prev[v] == PREV_HOP_NO
    ensures RoundInv(g, s, {}, d, prev)
  {
  }

  lemma RoundStep(g: Graph, s: nat, done: set<nat>, m: nat, d0: seq<int>, prev0: seq<int>, d1: seq<int>,
          prev1: seq<int>)
    requires |d0| <= GRAPHSIZE && |done| < |d0| && m < |d0| && m !in done
    requires RoundInv(g, s, done, d0, prev0)
    requires forall w :: 0 <= w < |d0| && w !in done ==> d0[m] <= d0[w]
    requires Relaxed(g, m, |d0|, d0, prev0, d1, prev1)
    ensures RoundInv(g, s, done + {m}, d1, prev1)
  {
    assert d0[m] == INFINITY || d0[m] <= |done|;
    assert forall u :: u in done + {m} ==> d1[u] == d0[u];
    assert |done + {m}| == |done| + 1;
  }

  /** What the two result arrays mean once every node has been visited. */
  ghost predicate ShortestTree(g: Graph, s: nat, d: seq<int>, prev: seq<int>)
  {
    && |d| == |prev| && s < |d|
    && (forall v :: 0 <= v < |d| ==>
                      if d[v] == INFINITY then !Reachable(g, s, v)
                      else 0 <= d[v] <= |d| && Dist(g, s, v, d[v]))
    && (forall v :: 0 <= v < |d| ==>
                      if v == s || d[v] == INFINITY then prev[v] == PREV_HOP_NO
                      else 0 <= prev[v] < |d| && (prev[v], v) in g && d[v] == d[prev[v]] + 1)
  }

  /** A finite distance is the length of the walk that `prev` describes. */
  lemma {:induction false} TreeHops(g: Graph, s: nat, done: set<nat>, d: seq<int>, prev: seq<int>, v: nat)
    requires Tree(g, s, done, d, prev) && v < |d| && d[v] < INFINITY
    requires forall u :: 0 <= u < |d| ==> 0 <= d[u]
    ensures Hops(g, s, v, d[v])
    decreases d[v]
  {
    if v != s {
      TreeHops(g, s, done, d, prev, prev[v]);
      assert Hops(g, s, prev[v], d[v] - 1);
    }
  }

  /** No walk is shorter than the distances, and no walk leads to a node left at INFINITY. */
  lemma {:induction false} WalksAreLong(g: Graph, s: nat, d: seq<int>, prev: seq<int>, done: set<nat>, v: nat, k: nat)
    requires RoundInv(g, s, done, d, prev) && |done| <= GRAPHSIZE
    requires forall u :: 0 <= u < |d| ==> u in done
    requires forall i, j :: (i, j) in g ==> i < |d| && j < |d|
    requires Hops(g, s, v, k)
    ensures v < |d| && d[v] <= k && d[v] < INFINITY
    decreases k
  {
    if k > 0 {
      var w: nat :| Hops(g, s, w, k - 1) && (w, v) in g;
      WalksAreLong(g, s, d, prev, done, w, k - 1);
    }
  }

  lemma AllVisited(g: Graph, s: nat, done: set<nat>, d: seq<int>, prev: seq<int>)
    requires RoundInv(g, s, done, d, prev) && |done| <= |d| <= GRAPHSIZE
    requires forall u :: 0 <= u < |d| ==> u in done
    requires forall i, j :: (i, j) in g ==> i < |d| && j < |d|
    ensures ShortestTree(g, s, d, prev)
  {
    forall v | 0 <= v < |d|
      ensures if d[v] == INFINITY then !Reachable(g, s, v) else 0 <= d[v] <= |d| && Dist(g, s, v, d[v])
    {
      if d[v] != INFINITY {
        TreeHops(g, s, done, d, prev, v);
      }
      forall k: nat | Hops(g, s, v, k)
        ensures d[v] <= k && d[v] < INFINITY
      {
        WalksAreLong(g, s, d, prev, done, v, k);
      }
    }
  }

  /** A set of as many indices as there are is all of them. */
  lemma {:induction false} FullSet(s: set<nat>, n: nat)
    requires forall x :: x in s ==> x < n
    ensures |s| <= n
    ensures |s| == n ==> forall x: nat :: x < n ==> x in s
  {
    if n == 0 {
      assert s == {};
    } else {
      FullSet(s - {n - 1}, n - 1);
    }
  }

  method RelaxNeighbours(n: nat, m: nat, graph: array<int>, d: array<int>, prev: array<int>)
    requires graph.Length == n * n && d.Length == prev.Length == n && m < n
    requires d != prev && d != graph && prev != graph && ZeroOne(graph[..])
    modifies d, prev
    ensures Relaxed(EdgesOf(graph[..], n), m, n, old(d[..]), old(prev[..]), d[..], prev[..])
  {
    ghost var d0, prev0 := d[..], prev[..];
    ghost var g := EdgesOf(graph[..], n);
    for i := 0 to n
      invariant Relaxed(g, m, i, d0, prev0, d[..], prev[..])
    {
      CellBound(n, m, i);
      assert graph[m * n + i] == Cell(graph[..], n, m, i);
      if graph[m * n + i] != 0 {
        if d[m] + graph[m * n + i] < d[i] {
          d[i] := d[m] + graph[m * n + i];
          prev[i] := m;
        }
      }
    }
  }

  method NearestUnvisited(n: nat, visited: array<bool>, d: array<int>) returns (mini: int)
    requires n <= visited.Length && d.Length == n
    ensures -1 <= mini < n
    ensures mini == -1 ==> forall i :: 0 <= i < n ==> visited[i]
    ensures mini != -1 ==> !visited[mini] && forall i :: 0 <= i < n && !visited[i] ==> d[mini] <= d[i]
    ensures forall i :: 0 <= i < mini && !visited[i] ==> d[mini] < d[i]
  {
    mini := -1;
    for i := 0 to n
      invariant -1 <= mini < i
      invariant mini == -1 ==> forall j :: 0 <= j < i ==> visited[j]
      invariant mini != -1 ==> !visited[mini] && forall j :: 0 <= j < i && !visited[j] ==> d[mini] <= d[j]
      invariant forall j :: 0 <= j < mini && !visited[j] ==> d[mini] < d[j]
    {
      if !visited[i] && (mini == -1 || d[i] < d[mini]) {
        mini := i;
      }
    }
  }

  /** The next node to visit. */
  method VisitNearest(n: nat, visited: array<bool>, d: array<int>, ghost done: set<nat>) returns (mini: nat)
    requires n <= visited.Length && d.Length == n && |done| < n
    requires forall j :: 0 <= j < n ==> (visited[j] <==> j in done)
    modifies visited
    ensures mini < n && mini !in done && forall w :: 0 <= w < n && w !in done ==> d[mini] <= d[w]
    ensures forall j :: 0 <= j < n ==> (visited[j] <==> j in done + {mini})
  {
    ghost var left := SomeIndexMissing(done, n);
    assert !visited[left];
    var m := NearestUnvisited(n, visited, d);
    visited[m] := true;
    mini := m;
  }

  method Initialise(source: nat, n: nat, d: array<int>, prev: array<int>, visited: array<bool>)
    requires source < n <= visited.Length && d.Length == prev.Length == n && d != prev
    modifies d, prev, visited
    ensures forall j :: 0 <= j < n ==>
      d[j] == (if j == source then 0 else INFINITY) && prev[j] == PREV_HOP_NO && !visited[j]
  {
    for i := 0 to n
      invariant forall j :: 0 <= j < i ==> d[j] == INFINITY && prev[j] == PREV_HOP_NO && !visited[j]
    {
      d[i] := INFINITY;
      prev[i] := PREV_HOP_NO;
      visited[i] := false;
    }
    d[source] := 0;
  }

  method ShortestPaths(source: nat, n: nat, graph: array<int>, d: array<int>, prev: array<int>)
    requires source < n <= GRAPHSIZE
    requires graph.Length == n * n && d.Length == prev.Length == n
    requires d != prev && d != graph && prev != graph && ZeroOne(graph[..])
    modifies d, prev
    ensures ShortestTree(EdgesOf(graph[..], n), source, d[..], prev[..])
  {
    var visited := new bool[GRAPHSIZE];
    ghost var g := EdgesOf(graph[..], n);
    ghost var done: set<nat> := {};
    Initialise(source, n, d, prev, visited);
    FirstRound(g, source, d[..], prev[..]);
    ghost var ds, ps := d[..], prev[..];
    for k := 0 to n
      invariant ds == d[..] && ps == prev[..]
      invariant RoundInv(g, source, done, ds, ps) && |done| == k
      invariant forall j :: 0 <= j < n ==> (visited[j] <==> j in done)
    {
      var mini := VisitNearest(n, visited, d, done);
      RelaxNeighbours(n, mini, graph, d, prev);
      RoundStep(g, source, done, mini, ds, ps, d[..], prev[..]);
      done, ds, ps := done + {mini}, d[..], prev[..];
    }
    FullSet(done, n);
    AllVisited(g, source, done, ds, ps);
  }

  /** A set with fewer than n elements misses an index below n. */
  lemma {:induction false} SomeIndexMissing(s: set<nat>, n: nat) returns (x: nat)
    requires |s| < n
    ensures x < n && x !in s
  {
    if n - 1 !in s {
      x := n - 1;
    } else {
      x := SomeIndexMissing(s - {n - 1}, n - 1);
    }
  }
}
