/** Topology graph and routing table of one node (src/dijkstra.c:25-35, 71-94, 140-185, 207-446). */
module RouteTables {
  import opened HashTables
  import opened Types
  import opened Graphs
  import opened Dijkstra

  datatype RouteEntry = RouteEntry(dest: nat, nextHop: nat, cost: int)

  const LINK_COST := 1
  const SELF_NODE_INDEX := 0

  ghost predicate Distinct(s: seq<nat>)
  {
    forall i, j :: 0 <= i < j < |s| ==> s[i] != s[j]
  }

  ghost function Elems(s: seq<nat>): set<nat>
  {
    set x | x in s
  }

  /** The links before the first one to an unknown node: the link cursor of construct_graph stays there. */
  ghost function KnownPrefix(links: seq<nat>, known: set<nat>): (p: seq<nat>)
    ensures p <= links
    ensures forall x :: x in p ==> x in known
    ensures |p| < |links| ==> links[|p|] !in known
  {
    if links == [] || links[0] !in known then [] else [links[0]] + KnownPrefix(links[1..], known)
  }

  /** Who can be left towards whom: own valid neighbours, and the links of valid LSAs. */
  ghost predicate Link(self: nat, nbrs: set<nat>, lsas: map<nat, Lsa>, a: nat, b: nat)
  {
    && a in lsas && b in lsas
    && if a == self then b in nbrs
       else lsas[a].valid && b in KnownPrefix(lsas[a].body.links, lsas.Keys)
  }

  ghost function Topology(self: nat, nbrs: set<nat>, lsas: map<nat, Lsa>): (g: Graph)
    ensures forall a: nat, b: nat :: (a, b) in g <==> Link(self, nbrs, lsas, a, b)
  {
    set a: nat, b: nat | a in lsas && b in lsas && Link(self, nbrs, lsas, a, b) :: (a, b)
  }

  /** Every edge out of another node is an advertised link of its valid LSA, and no advertised link between known nodes
      is lost exactly when every known node advertised behind an unknown one is also advertised in front of it. */
  lemma TopologyFaithful(self: nat, nbrs: set<nat>, lsas: map<nat, Lsa>, a: nat)
    requires a in lsas && a != self && lsas[a].valid
    ensures forall b: nat :: (a, b) in Topology(self, nbrs, lsas) ==> b in lsas[a].body.links && b in lsas
    ensures (forall b: nat :: b in lsas[a].body.links && b in lsas ==> (a, b) in Topology(self, nbrs, lsas))
            <==> NoneHidden(lsas[a].body.links, lsas.Keys)
  {
    var links, p := lsas[a].body.links, KnownPrefix(lsas[a].body.links, lsas.Keys);
    assert forall b: nat :: (a, b) in Topology(self, nbrs, lsas) <==> b in p;
    PrefixHides(links, lsas.Keys);
  }

  /** The link list has b at j, and known ids alone in front of it. */
  ghost predicate StandsAt(links: seq<nat>, known: set<nat>, b: nat, j: nat)
  {
    j < |links| && links[j] == b && forall i :: 0 <= i < j ==> links[i] in known
  }

  /** The edges, one by one: between known nodes, from the node itself to its valid neighbours, and from another node
      with a valid LSA to what it advertises while all before that is known. */
  lemma TopologyExactly(self: nat, nbrs: set<nat>, lsas: map<nat, Lsa>, a: nat, b: nat)
    ensures (a, b) in Topology(self, nbrs, lsas) <==>
      && a in lsas && b in lsas
      && if a == self then b in nbrs
         else lsas[a].valid && exists j: nat :: StandsAt(lsas[a].body.links, lsas.Keys, b, j)
  {
    if a in lsas && a != self {
      PrefixExactly(lsas[a].body.links, lsas.Keys, b);
    }
  }

  lemma PrefixExactly(links: seq<nat>, known: set<nat>, b: nat)
    ensures b in KnownPrefix(links, known) <==> b in known && exists j: nat :: StandsAt(links, known, b, j)
  {
    var p := KnownPrefix(links, known);
    assert p == links[..|p|];
    if b in p {
      var j: nat :| j < |p| && p[j] == b;
      assert forall i :: 0 <= i < j ==> links[i] == p[i];
      assert StandsAt(links, known, b, j);
    }
    if j: nat :| b in known && StandsAt(links, known, b, j) {
      assert j < |p|;
      assert p[j] == b;
    }
  }

  /** Whatever known link stands behind an unknown one stands in front of it as well. */
  ghost predicate NoneHidden(links: seq<nat>, known: set<nat>)
  {
    forall j, k :: 0 <= j < k < |links| && links[j] !in known && links[k] in known ==> links[k] in links[..j]
  }

  lemma PrefixHides(links: seq<nat>, known: set<nat>)
    ensures NoneHidden(links, known) <==> forall x :: x in links && x in known ==> x in KnownPrefix(links, known)
  {
    var p := KnownPrefix(links, known);
    assert p == links[..|p|];
    if forall x :: x in links && x in known ==> x in p {
      forall j, k | 0 <= j < k < |links| && links[j] !in known && links[k] in known
        ensures links[k] in links[..j]
      {
        var i :| 0 <= i < |p| && p[i] == links[k];
        assert |p| <= j && links[..j][i] == links[k];
      }
    }
    if NoneHidden(links, known) {
      forall x | x in links && x in known
        ensures x in p
      {
        var k :| 0 <= k < |links| && links[k] == x;
        if k < |p| {
          assert p[k] == x;
        }
      }
    }
  }

  /** A link that is lost: node 2 announces an unknown node and then node 1. */
  lemma LinkHidden(self: Lsa, other: Lsa)
    requires other.valid && other.body.links == [9, 1]
    ensures (2, 1) !in Topology(1, {2}, map[1 := self, 2 := other])
  {
    assert KnownPrefix([9, 1], map[1 := self, 2 := other].Keys) == [];
  }

  ghost predicate SortedByDest(t: seq<RouteEntry>)
  {
    forall i, j :: 0 <= i < j < |t| ==> t[i].dest <= t[j].dest
  }

  /** One routing table line is right for the graph `g` seen from `self`. */
  ghost predicate EntryOk(e: RouteEntry, self: nat, g: Graph)
  {
    if Reachable(g, self, e.dest) then
      && 0 <= e.cost <= GRAPHSIZE && Dist(g, self, e.dest, e.cost)
      && if e.dest == self then e.nextHop == self
         else e.cost > 0 && (self, e.nextHop) in g && Dist(g, e.nextHop, e.dest, e.cost - 1)
    else e.cost == INFINITY && e.nextHop == NO_HOP
  }

  /** The routing table is the shortest path table of `g`, with one line for each node in `ids`. */
  ghost predicate RoutesOk(t: seq<RouteEntry>, self: nat, ids: set<nat>, g: Graph)
  {
    && (forall i, j :: 0 <= i < j < |t| ==> t[i].dest < t[j].dest)
    && (forall i :: 0 <= i < |t| ==> t[i].dest in ids && EntryOk(t[i], self, g))
    && (forall v :: v in ids ==> exists i :: 0 <= i < |t| && t[i].dest == v)
  }

  /** First index of a node id in g_node_id, or -1. */
  method IndexByNodeId(nodeIds: array<nat>, nodeId: nat) returns (index: int)
    ensures -1 <= index < nodeIds.Length
    ensures index == -1 <==> nodeId !in nodeIds[..]
    ensures index != -1 ==> nodeIds[index] == nodeId
  {
    index := 0;
    while index < nodeIds.Length
      invariant 0 <= index <= nodeIds.Length && nodeId !in nodeIds[..index]
    {
      if nodeIds[index] == nodeId { return; }
      index := index + 1;
    }
    assert nodeIds[..] == nodeIds[..index];
    index := -1;
  }

  method SetCell(graph: array<int>, n: nat, row: nat, col: nat)
    requires graph.Length == n * n && row < n && col < n && ZeroOne(graph[..])
    modifies graph
    ensures ZeroOne(graph[..])
    ensures forall i: nat, j: nat :: i < n && j < n ==>
      Cell(graph[..], n, i, j) == if i == row && j == col then LINK_COST else Cell(old(graph[..]), n, i, j)
  {
    CellBound(n, row, col);
    graph[row * n + col] := LINK_COST;
    forall i: nat, j: nat | i < n && j < n
      ensures Cell(graph[..], n, i, j) == if i == row && j == col then LINK_COST else Cell(old(graph[..]), n, i, j)
    {
      CellBound(n, i, j);
      if i * n + j == row * n + col {
        CellInjective(n, i, j, row, col);
      }
    }
  }

  /** The rows below `upto` hold exactly the links of their nodes. */
  ghost predicate RowsDone(m: seq<int>, ids: seq<nat>, upto: nat, self: nat, nbrs: set<nat>, lsas: map<nat, Lsa>)
    requires |m| == |ids| * |ids|
  {
    forall i: nat, j: nat :: i < |ids| && j < |ids| ==>
      (Cell(m, |ids|, i, j) != 0 <==> i < upto && Link(self, nbrs, lsas, ids[i], ids[j]))
  }

  /** The row `row` holds exactly links to nodes in `targets`, the other rows are as in `m0`. */
  ghost predicate RowHolds(m: seq<int>, m0: seq<int>, ids: seq<nat>, row: nat, targets: seq<nat>)
    requires |m| == |m0| == |ids| * |ids|
  {
    forall i: nat, j: nat :: i < |ids| && j < |ids| ==>
      (Cell(m, |ids|, i, j) != 0 <==> Cell(m0, |ids|, i, j) != 0 || (i == row && ids[j] in targets))
  }

  /** Row 0: the own valid neighbours that are known. */
  method FillSelfRow(nodeIds: array<nat>, graph: array<int>, nbrIds: seq<nat>)
    requires graph.Length == nodeIds.Length * nodeIds.Length && nodeIds.Length > 0
    requires Distinct(nodeIds[..]) && ZeroOne(graph[..])
    modifies graph
    ensures ZeroOne(graph[..])
    ensures RowHolds(graph[..], old(graph[..]), nodeIds[..], SELF_NODE_INDEX, nbrIds)
  {
    var n := nodeIds.Length;
    for j := 0 to |nbrIds|
      invariant ZeroOne(graph[..])
      invariant RowHolds(graph[..], old(graph[..]), nodeIds[..], SELF_NODE_INDEX, nbrIds[..j])
    {
      assert nbrIds[..j + 1] == nbrIds[..j] + [nbrIds[j]];
      var col := IndexByNodeId(nodeIds, nbrIds[j]);
      if col != -1 {
        SetCell(graph, n, SELF_NODE_INDEX, col);
      }
    }
    assert nbrIds[..|nbrIds|] == nbrIds;
  }

  /** A later row: the cursor `next` moves on only past known nodes. */
  method FillRow(nodeIds: array<nat>, graph: array<int>, row: nat, links: seq<nat>, ghost known: set<nat>)
    requires graph.Length == nodeIds.Length * nodeIds.Length && row < nodeIds.Length
    requires Distinct(nodeIds[..]) && ZeroOne(graph[..])
    requires forall x :: x in known <==> x in nodeIds[..]
    modifies graph
    ensures ZeroOne(graph[..])
    ensures RowHolds(graph[..], old(graph[..]), nodeIds[..], row, KnownPrefix(links, known))
  {
    var next := 0;
    for j := 0 to |links|
      invariant 0 <= next <= j
      invariant forall x :: x in links[..next] ==> x in known
      invariant next < j ==> links[next] !in known
      invariant ZeroOne(graph[..])
      invariant RowHolds(graph[..], old(graph[..]), nodeIds[..], row, links[..next])
    {
      assert links[..next + 1] == links[..next] + [links[next]];
      var col := IndexByNodeId(nodeIds, links[next]);
      if col != -1 {
        SetCell(graph, nodeIds.Length, row, col);
        next := next + 1;
      }
    }
    KnownPrefixIs(links, known, next);
  }

  lemma {:induction false} KnownPrefixIs(links: seq<nat>, known: set<nat>, k: nat)
    requires k <= |links|
    requires forall x :: x in links[..k] ==> x in known
    requires k < |links| ==> links[k] !in known
    ensures KnownPrefix(links, known) == links[..k]
  {
    if k > 0 {
      assert links[0] in links[..k];
      assert forall x :: x in links[1..][..k - 1] ==> x in links[..k];
      KnownPrefixIs(links[1..], known, k - 1);
    }
  }

  /** g_node_id: the node itself first, then every other origin in walking order. */
  method CollectNodeIds(self: nat, lsas: HashTable<nat, Lsa>) returns (nodeIds: array<nat>)
    requires lsas.Valid() && self in lsas.Model()
    ensures fresh(nodeIds) && nodeIds.Length == |lsas.Model()|
    ensures nodeIds.Length > 0 && nodeIds[SELF_NODE_INDEX] == self && Distinct(nodeIds[..])
    ensures forall x :: x in lsas.Model() <==> x in nodeIds[..]
  {
    var es := lsas.Walk();
    MapOfSize(es);
    ghost var at := MapOfIndex(es, self);
    nodeIds := new nat[lsas.entrCnt];
    nodeIds[SELF_NODE_INDEX] := self;
    var next := 1;
    for k := 0 to |es|
      invariant next == (if at < k then k else k + 1)
      invariant nodeIds[0] == self
      invariant forall i :: 0 <= i < k && i != at ==> nodeIds[if i < at then i + 1 else i] == es[i].key
    {
      if es[k].key == self {
        if at != k { UniqueAt(es, if at < k then at else k, if at < k then k else at); }
      } else {
        nodeIds[next] := es[k].key;
        next := next + 1;
      }
    }
    SelfFirst(es, at, nodeIds[..]);
  }

  /** The keys with one of them moved to the front. */
  lemma SelfFirst(es: seq<Entry<nat, Lsa>>, at: nat, ids: seq<nat>)
    requires UniqueKeys(es) && at < |es| == |ids| && ids[0] == es[at].key
    requires forall i :: 0 <= i < |es| && i != at ==> ids[if i < at then i + 1 else i] == es[i].key
    ensures Distinct(ids) && forall x :: x in MapOf(es) <==> x in ids
  {
    forall i, j | 0 <= i < j < |ids|
      ensures ids[i] != ids[j]
    {
      var a, b := if i == 0 then at else if i <= at then i - 1 else i, if j <= at then j - 1 else j;
      if a < b { UniqueAt(es, a, b); } else { UniqueAt(es, b, a); }
    }
    forall x
      ensures x in MapOf(es) <==> x in ids
    {
      if x in MapOf(es) {
        var i := MapOfIndex(es, x);
        assert x == ids[if i == at then 0 else if i < at then i + 1 else i];
      }
      if x in ids {
        var i :| 0 <= i < |ids| && ids[i] == x;
        MapOfAt(es, if i == 0 then at else if i <= at then i - 1 else i);
      }
    }
  }

  lemma ZeroRows(m: seq<int>, ids: seq<nat>, self: nat, nbrs: set<nat>, lsas: map<nat, Lsa>)
    requires |m| == |ids| * |ids| && forall x :: 0 <= x < |m| ==> m[x] == 0
    ensures RowsDone(m, ids, 0, self, nbrs, lsas)
  {
    forall i: nat, j: nat | i < |ids| && j < |ids|
      ensures Cell(m, |ids|, i, j) == 0
    {
      CellBound(|ids|, i, j);
    }
  }

  lemma RowStep(m0: seq<int>, m: seq<int>, ids: seq<nat>, row: nat, targets: seq<nat>,
                self: nat, nbrs: set<nat>, lsas: map<nat, Lsa>)
    requires |m0| == |m| == |ids| * |ids| && row < |ids|
    requires RowsDone(m0, ids, row, self, nbrs, lsas) && RowHolds(m, m0, ids, row, targets)
    requires forall j :: 0 <= j < |ids| ==> (Link(self, nbrs, lsas, ids[row], ids[j]) <==> ids[j] in targets)
    ensures RowsDone(m, ids, row + 1, self, nbrs, lsas)
  {
  }

  lemma RowsAreTopology(m: seq<int>, ids: seq<nat>, self: nat, nbrs: set<nat>, lsas: map<nat, Lsa>)
    requires |m| == |ids| * |ids| && RowsDone(m, ids, |ids|, self, nbrs, lsas)
    requires Distinct(ids) && forall x :: x in lsas <==> x in ids
    ensures Renames(EdgesOf(m, |ids|), ids, Topology(self, nbrs, lsas))
  {
    assert forall i :: 0 <= i < |ids| ==> ids[i] in ids;
  }

  method ConstructGraph(self: nat, nbrIds: seq<nat>, lsas: HashTable<nat, Lsa>) returns (nodeIds: array<nat>,
          graph: array<int>)
    requires lsas.Valid() && self in lsas.Model()
    ensures fresh(nodeIds) && fresh(graph) && nodeIds.Length == |lsas.Model()| > 0
    ensures nodeIds[SELF_NODE_INDEX] == self && forall x :: x in lsas.Model() <==> x in nodeIds[..]
    ensures graph.Length == nodeIds.Length * nodeIds.Length && ZeroOne(graph[..])
    ensures Renames(EdgesOf(graph[..], nodeIds.Length), nodeIds[..], Topology(self, Elems(nbrIds), lsas.Model()))
  {
    nodeIds := CollectNodeIds(self, lsas);
    var n := nodeIds.Length;
    graph := new int[n * n](_ => 0);
    ghost var ids, m, nbrs := nodeIds[..], lsas.Model(), Elems(nbrIds);
    assert forall i :: 0 <= i < |ids| ==> ids[i] in m;
    ZeroRows(graph[..], ids, self, nbrs, m);
    ghost var before := graph[..];
    FillSelfRow(nodeIds, graph, nbrIds);
    RowStep(before, graph[..], ids, 0, nbrIds, self, nbrs, m);
    for i := 1 to n
      invariant nodeIds[..] == ids && ZeroOne(graph[..])
      invariant RowsDone(graph[..], ids, i, self, nbrs, m)
    {
      before := graph[..];
      var p := lsas.Find(nodeIds[i]);
      assert p == Some(m[ids[i]]);
      ghost var targets: seq<nat> := [];
      if p.value.valid {
        targets := KnownPrefix(p.value.body.links, m.Keys);
        FillRow(nodeIds, graph, i, p.value.body.links, m.Keys);
      }
      RowStep(before, graph[..], ids, i, targets, self, nbrs, m);
    }
    RowsAreTopology(graph[..], ids, self, nbrs, m);
  }

  method NextHop(src: nat, dst: nat, prev: array<int>, ghost g: Graph, ghost d: seq<int>) returns (nextHop: int)
    requires ShortestTree(g, src, d, prev[..]) && dst < |d| <= GRAPHSIZE
    ensures nextHop == NEXT_HOP_NO <==> !Reachable(g, src, dst)
    ensures dst == src ==> nextHop == src
    ensures dst != src && Reachable(g, src, dst) ==>
      0 <= nextHop && (src, nextHop) in g && Dist(g, nextHop, dst, d[dst] - 1)
    decreases d[dst]
  {
    if prev[dst] == PREV_HOP_NO {
      if src != dst {
        nextHop := NEXT_HOP_NO;
      } else {
        assert Hops(g, src, src, 0);
        nextHop := src;
      }
      return;
    }
    ghost var p := prev[dst];
    if prev[dst] != src {
      nextHop := NextHop(src, prev[dst], prev, g, d);
      assert Dist(g, src, p, d[p]);
      assert Hops(g, nextHop, p, d[p] - 1) && (p, dst) in g;
    } else {
      nextHop := dst;
      assert Hops(g, src, src, 0);
      assert Hops(g, dst, dst, 0);
    }
    forall j: nat | Hops(g, nextHop, dst, j)
      ensures d[dst] - 1 <= j
    {
      HopsPrepend(g, src, nextHop, dst, j);
    }
  }

  /** Puts a line behind every line whose destination is not larger. */
  method InsertLine(r: seq<RouteEntry>, e: RouteEntry) returns (r': seq<RouteEntry>)
    requires SortedByDest(r)
    ensures SortedByDest(r') && multiset(r') == multiset(r) + multiset{e}
  {
    var j := |r|;
    while j > 0 && e.dest < r[j - 1].dest
      invariant 0 <= j <= |r|
      invariant forall k :: j <= k < |r| ==> e.dest < r[k].dest
    {
      j := j - 1;
    }
    r' := r[..j] + [e] + r[j..];
    Inserted(r, j, e);
  }

  lemma Inserted(r: seq<RouteEntry>, j: nat, e: RouteEntry)
    requires SortedByDest(r) && j <= |r|
    requires forall k :: 0 <= k < j ==> r[k].dest <= e.dest
    requires forall k :: j <= k < |r| ==> e.dest <= r[k].dest
    ensures SortedByDest(r[..j] + [e] + r[j..]) && multiset(r[..j] + [e] + r[j..]) == multiset(r) + multiset{e}
  {
    InsertedLines(r, j, e);
    var s := r[..j] + [e] + r[j..];
    forall a, b | 0 <= a < b < |s|
      ensures s[a].dest <= s[b].dest
    {
      InsertedOrder(r, j, e, s, a, b);
    }
  }

  lemma InsertedLines(r: seq<RouteEntry>, j: nat, e: RouteEntry)
    requires j <= |r|
    ensures multiset(r[..j] + [e] + r[j..]) == multiset(r) + multiset{e}
  {
    assert r == r[..j] + r[j..];
  }

  lemma InsertedOrder(r: seq<RouteEntry>, j: nat, e: RouteEntry, s: seq<RouteEntry>, a: nat, b: nat)
    requires SortedByDest(r) && j <= |r| && s == r[..j] + [e] + r[j..] && a < b < |s|
    requires forall k :: 0 <= k < j ==> r[k].dest <= e.dest
    requires forall k :: j <= k < |r| ==> e.dest <= r[k].dest
    ensures s[a].dest <= s[b].dest
  {
    assert s[a] == if a < j then r[a] else if a == j then e else r[a - 1];
    assert s[b] == if b < j then r[b] else if b == j then e else r[b - 1];
  }

  /** What the library sort is asked for: the same lines in the order of their destinations. */
  method SortTable(t: seq<RouteEntry>) returns (r: seq<RouteEntry>)
    ensures SortedByDest(r) && multiset(r) == multiset(t)
  {
    r := [];
    for i := 0 to |t|
      invariant SortedByDest(r) && multiset(r) == multiset(t[..i])
    {
      assert t[..i + 1] == t[..i] + [t[i]];
      r := InsertLine(r, t[i]);
    }
    assert t[..|t|] == t;
  }

  lemma SortedRoutes(t: seq<RouteEntry>, r: seq<RouteEntry>, self: nat, ids: seq<nat>, g: Graph)
    requires SortedByDest(r) && multiset(r) == multiset(t)
    requires |t| == |ids| && Distinct(ids)
    requires forall i :: 0 <= i < |t| ==> t[i].dest == ids[i] && EntryOk(t[i], self, g)
    ensures RoutesOk(r, self, Elems(ids), g)
  {
    forall i | 0 <= i < |r|
      ensures r[i] in t
    {
      assert r[i] in multiset(r);
    }
    forall e | e in t
      ensures e in r
    {
      assert e in multiset(t);
    }
    forall i, j | 0 <= i < j < |r|
      ensures r[i].dest != r[j].dest
    {
      var a :| 0 <= a < |t| && t[a] == r[i];
      assert r[j] in t;
      OnceInSeq(t, a);
      TwiceInSeq(r, i, j);
    }
    forall v | v in ids
      ensures exists i :: 0 <= i < |r| && r[i].dest == v
    {
      var a :| 0 <= a < |ids| && ids[a] == v;
      assert t[a] in r;
    }
  }

  lemma TwiceInSeq(s: seq<RouteEntry>, i: nat, j: nat)
    requires i < j < |s|
    ensures s[i] == s[j] ==> multiset(s)[s[i]] >= 2
  {
    assert s == s[..i] + [s[i]] + s[i + 1..j] + [s[j]] + s[j + 1..];
  }

  lemma OnceInSeq(s: seq<RouteEntry>, i: nat)
    requires i < |s|
    requires forall j :: 0 <= j < |s| && j != i ==> s[j] != s[i]
    ensures multiset(s)[s[i]] == 1
  {
    assert s == s[..i] + [s[i]] + s[i + 1..];
    assert s[i] !in s[..i] && s[i] !in s[i + 1..];
  }

  lemma LineOk(gi: Graph, ids: seq<nat>, g: Graph, src: nat, i: nat, d: seq<int>, prev: seq<int>, nextHop: int)
    requires ShortestTree(gi, src, d, prev) && Renames(gi, ids, g) && NO_HOP !in ids
    requires |ids| == |d| <= GRAPHSIZE && i < |d|
    requires nextHop == NEXT_HOP_NO <==> !Reachable(gi, src, i)
    requires i == src ==> nextHop == src
    requires i != src && Reachable(gi, src, i) ==>
      0 <= nextHop && (src, nextHop) in gi && Dist(gi, nextHop, i, d[i] - 1)
    ensures nextHop != NEXT_HOP_NO ==> 0 <= nextHop < |ids|
    ensures EntryOk(RouteEntry(ids[i], if nextHop != NEXT_HOP_NO then ids[nextHop] else NO_HOP, d[i]), ids[src], g)
  {
    assert Hops(gi, src, src, 0);
    DistRenamed(gi, ids, g, src, i, if d[i] == INFINITY then 0 else d[i]);
    if d[i] != INFINITY && i != src {
      assert d[i] > 0;
      DistRenamed(gi, ids, g, nextHop, i, d[i] - 1);
    }
  }

  method TableLines(src: nat, nodeIds: array<nat>, d: array<int>, prev: array<int>, ghost gi: Graph, ghost g: Graph)
    returns (t: seq<RouteEntry>)
    requires nodeIds.Length == d.Length <= GRAPHSIZE && src < nodeIds.Length && NO_HOP !in nodeIds[..]
    requires ShortestTree(gi, src, d[..], prev[..]) && Renames(gi, nodeIds[..], g)
    ensures |t| == nodeIds.Length
    ensures forall k :: 0 <= k < |t| ==> t[k].dest == nodeIds[k] && EntryOk(t[k], nodeIds[src], g)
  {
    t := [];
    ghost var ids, ds, ps := nodeIds[..], d[..], prev[..];
    for i := 0 to nodeIds.Length
      invariant |t| == i
      invariant forall k :: 0 <= k < i ==> t[k].dest == nodeIds[k] && EntryOk(t[k], nodeIds[src], g)
    {
      var nextHop := NextHop(src, i, prev, gi, ds);
      LineOk(gi, ids, g, src, i, ds, ps, nextHop);
      t := t + [RouteEntry(nodeIds[i], if nextHop != NEXT_HOP_NO then nodeIds[nextHop] else NO_HOP, d[i])];
    }
  }

  class RouteTable {
    var table: seq<RouteEntry>

    constructor ()
      ensures table == []
    {
      table := [];
    }

    /** One line per node id, then sorted (src/dijkstra.c:152-185). */
    method FillRouteTable(src: nat, nodeIds: array<nat>, d: array<int>, prev: array<int>, ghost gi: Graph,
            ghost g: Graph)
      requires nodeIds.Length == d.Length <= GRAPHSIZE && src < nodeIds.Length && NO_HOP !in nodeIds[..]
      requires ShortestTree(gi, src, d[..], prev[..]) && Renames(gi, nodeIds[..], g)
      modifies this
      ensures RoutesOk(table, nodeIds[src], Elems(nodeIds[..]), g)
    {
      var t := TableLines(src, nodeIds, d, prev, gi, g);
      var sorted := SortTable(t);
      SortedRoutes(t, sorted, nodeIds[src], nodeIds[..], g);
      table := sorted;
    }

    method UpdateRouteInfo(self: nat, nbs: HashTable<nat, Neighbour>, lsas: HashTable<nat, Lsa>)
      requires nbs.Valid() && lsas.Valid() && self in lsas.Model()
      requires |lsas.Model()| <= GRAPHSIZE && NO_HOP !in lsas.Model()
      modifies this
      ensures RoutesOk(table, self, lsas.Model().Keys, Topology(self, ValidIds(nbs.Entries()), lsas.Model()))
    {
      var nbrIds := ValidNeighbours(nbs);
      var nodeIds, graph := ConstructGraph(self, nbrIds, lsas);
      var n := nodeIds.Length;
      var d, prev := new int[n], new int[n];
      ghost var g := Topology(self, Elems(nbrIds), lsas.Model());
      ShortestPaths(SELF_NODE_INDEX, n, graph, d, prev);
      FillRouteTable(SELF_NODE_INDEX, nodeIds, d, prev, EdgesOf(graph[..], n), g);
      assert Elems(nodeIds[..]) == lsas.Model().Keys;
    }

    /** Binary search for a destination. */
    method FindRouteEntry(target: nat) returns (r: Option<RouteEntry>)
      requires SortedByDest(table)
      ensures r.Some? ==> r.value in table && r.value.dest == target
      ensures r.None? ==> forall i :: 0 <= i < |table| ==> table[i].dest != target
    {
      var low, high := 0, |table| - 1;
      while low <= high
        invariant 0 <= low <= high + 1 <= |table|
        invariant forall i :: 0 <= i < low ==> table[i].dest < target
        invariant forall i :: high < i < |table| ==> target < table[i].dest
      {
        var middle := low + (high - low) / 2;
        if target < table[middle].dest {
          high := middle - 1;
        } else if target > table[middle].dest {
          low := middle + 1;
        } else {
          return Some(table[middle]);
        }
      }
      r := None;
    }
  }

  /** The neighbours that are up. */
  ghost function ValidIds(nbs: seq<Entry<nat, Neighbour>>): set<nat>
  {
    set i | 0 <= i < |nbs| && nbs[i].val.valid :: nbs[i].key
  }

  lemma ValidIdsAppend(es: seq<Entry<nat, Neighbour>>, e: Entry<nat, Neighbour>)
    ensures ValidIds(es + [e]) == ValidIds(es) + if e.val.valid then {e.key} else {}
  {
    var s := es + [e];
    assert forall i :: 0 <= i < |es| ==> s[i] == es[i];
    assert s[|es|] == e;
    forall k | k in ValidIds(es)
      ensures k in ValidIds(s)
    {
      var i :| 0 <= i < |es| && es[i].val.valid && es[i].key == k;
      assert s[i].val.valid;
    }
  }

  method ValidNeighbours(nbs: HashTable<nat, Neighbour>) returns (ids: seq<nat>)
    requires nbs.Valid()
    ensures Elems(ids) == ValidIds(nbs.Entries())
  {
    var es := nbs.Walk();
    ids := [];
    for k := 0 to |es|
      invariant Elems(ids) == ValidIds(es[..k])
    {
      assert es[..k + 1] == es[..k] + [es[k]];
      ValidIdsAppend(es[..k], es[k]);
      if es[k].val.valid {
        ids := ids + [es[k].key];
      }
    }
    assert es[..|es|] == es;
  }
}
