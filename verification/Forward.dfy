/** Where a request for an object goes next (src/forward.c:23-136). */
module Forwarding {
  import opened HashTables
  import opened Types
  import opened Graphs
  import opened Dijkstra
  import opened RouteTables
  import opened Protocol
  import opened Ageing
  import opened Forests
  import opened Queries
  import opened DynArrays
  import opened PrefixTrees
  import opened Daemons

  const INT_MAX := 0x7FFF_FFFF

  // ---------------------------------------------------------------- what is looked for

  /** Nodes that claim the matched prefix and no shorter one. */
  ghost function Exact(a: Answer, known: set<nat>): set<nat>
  {
    if a.Found? && a.ids.Some? then (IdSet(a.ids) - SetOf(a.allPre)) * known else {}
  }

  /** Nodes that claim the longest non-empty prefix. */
  ghost function Fallback(a: Answer, known: set<nat>): set<nat>
  {
    if a.Found? && a.ids.Some? then IdSet(a.lastPre) * known else {}
  }

  ghost function Reached(g: Graph, n: nat, c: set<nat>): set<nat>
  {
    set x | x in c && Reachable(g, n, x)
  }

  /** The candidates of a lookup at n: the reachable exact ones, or else the reachable fallback. */
  ghost function Goals(g: Graph, n: nat, a: Answer, known: set<nat>): set<nat>
  {
    if Reached(g, n, Exact(a, known)) != {} then Reached(g, n, Exact(a, known)) else Reached(g, n, Fallback(a, known))
  }

  /** x is one of the goals nearest to n, d hops away. */
  ghost predicate Nearest(g: Graph, n: nat, goals: set<nat>, x: nat, d: nat)
  {
    x in goals && Dist(g, n, x, d) && forall y: nat, k: nat :: y in goals && Dist(g, n, y, k) ==> d <= k
  }

  /** The hop is the first step of a shortest walk to x, or x itself if the walk is empty. */
  ghost predicate Towards(g: Graph, n: nat, hop: nat, x: nat, d: nat)
  {
    if x == n then hop == n else d > 0 && (n, hop) in g && Dist(g, hop, x, d - 1)
  }

  ghost predicate HopOk(g: Graph, n: nat, goals: set<nat>, hop: nat)
  {
    if goals == {} then hop == NO_HOP else exists x: nat, d: nat ::
      Nearest(g, n, goals, x, d) && Towards(g, n, hop, x, d)
  }

  // ---------------------------------------------------------------- the least-cost loops

  /** The least cost below `cost0` among the lines whose destination is in `c`, with its next hop. */
  ghost predicate Lowest(t: seq<RouteEntry>, c: set<nat>, cost0: int, hop0: nat, cost: int, hop: nat)
  {
    && cost <= cost0 && (forall i :: 0 <= i < |t| && t[i].dest in c ==> cost <= t[i].cost)
    && if cost == cost0 then hop == hop0
       else exists i :: 0 <= i < |t| && t[i].dest in c && t[i].cost == cost && t[i].nextHop == hop
  }

  lemma LowestMore(t: seq<RouteEntry>, c: set<nat>, x: nat, cost0: int, hop0: nat, cost: int, hop: nat,
          e: Option<RouteEntry>)
    requires Lowest(t, c, cost0, hop0, cost, hop)
    requires forall i, j :: 0 <= i < j < |t| ==> t[i].dest < t[j].dest
    requires if e.Some? then e.value in t && e.value.dest == x else forall i :: 0 <= i < |t| ==> t[i].dest != x
    ensures if e.Some? && e.value.cost < cost then Lowest(t, c + {x}, cost0, hop0, e.value.cost, e.value.nextHop)
            else Lowest(t, c + {x}, cost0, hop0, cost, hop)
  {
    if e.Some? {
      var i :| 0 <= i < |t| && t[i] == e.value;
      assert forall j :: 0 <= j < |t| && t[j].dest == x ==> j == i;
      assert t[i].dest in c + {x};
    }
    if cost != cost0 {
      var i :| 0 <= i < |t| && t[i].dest in c && t[i].cost == cost && t[i].nextHop == hop;
      assert t[i].dest in c + {x};
    }
  }

  ghost function Ids(d: DynArray?): set<nat>
    reads d, if d == null then {} else {d.arr}
    requires d != null ==> d.Valid()
  {
    if d == null then {} else SetOf(d.Contents())
  }

  /** One least-cost loop of lookup_file; members of `skip` do not take part. */
  method ChooseNearest(routes: RouteTable, ids: DynArray, skip: DynArray?, cost0: int, hop0: nat) returns (cost: int,
          hop: nat)
    requires ids.Valid() && (skip != null ==> skip.Valid())
    requires forall i, j :: 0 <= i < j < |routes.table| ==> routes.table[i].dest < routes.table[j].dest
    ensures Lowest(routes.table, Ids(ids) - Ids(skip), cost0, hop0, cost, hop)
  {
    cost, hop := cost0, hop0;
    ghost var s, t, sk := ids.Contents(), routes.table, Ids(skip);
    for i := 0 to ids.currElem
      invariant ids.Contents() == s && routes.table == t && Ids(skip) == sk
      invariant Lowest(t, SetOf(s[..i]) - sk, cost0, hop0, cost, hop)
    {
      var x := ids.arr[i];
      assert s[..i + 1] == s[..i] + [x];
      if skip != null {
        var at := skip.GetElemIdx(x);
        if at != skip.currElem {
          assert SetOf(s[..i + 1]) - sk == SetOf(s[..i]) - sk;
          continue;
        }
      }
      var e := routes.FindRouteEntry(x);
      LowestMore(t, SetOf(s[..i]) - sk, x, cost0, hop0, cost, hop, e);
      assert SetOf(s[..i + 1]) - sk == (SetOf(s[..i]) - sk) + {x};
      if e.Some? && e.value.cost < cost {
        cost, hop := e.value.cost, e.value.nextHop;
      }
    }
    assert s[..|s|] == s;
  }

  /** What the two loops together choose. */
  ghost predicate Chosen(t: seq<RouteEntry>, a: Answer, hop: nat)
  {
    if !a.Found? || a.ids.None? then hop == NO_HOP
    else
      exists cost1: int, hop1: nat ::
        && Lowest(t, IdSet(a.ids) - SetOf(a.allPre), INT_MAX, NO_HOP, cost1, hop1)
        && if hop1 == NO_HOP && a.lastPre.Some? then exists cost2: int ::
          Lowest(t, IdSet(a.lastPre), cost1, hop1, cost2, hop)
           else hop == hop1
  }

  /** The two loops of lookup_file: the second only if the first finds nothing that can be reached. */
  method ChooseHop(routes: RouteTable, list: DynArray, lastPre: DynArray?, allPre: DynArray?,
          ghost a: Answer) returns (hop: nat)
    requires a.Found? && Answers(a, false, list, lastPre, allPre)
    requires forall i, j :: 0 <= i < j < |routes.table| ==> routes.table[i].dest < routes.table[j].dest
    ensures Chosen(routes.table, a, hop)
  {
    assert Ids(list) == IdSet(a.ids) && Ids(allPre) == SetOf(a.allPre);
    var cost, hop1 := ChooseNearest(routes, list, allPre, INT_MAX, NO_HOP);
    hop := hop1;
    if hop1 == NO_HOP && lastPre != null {
      assert Ids(lastPre) - Ids(null) == IdSet(a.lastPre);
      cost, hop := ChooseNearest(routes, lastPre, null, cost, hop1);
    }
  }

  /** The part of lookup_file up to the neighbour table. */
  method NextHopFor(tree: PrefixTree, routes: RouteTable, name: string) returns (crash: bool, hop: nat)
    requires tree.Valid()
    requires forall i, j :: 0 <= i < j < |routes.table| ==> routes.table[i].dest < routes.table[j].dest
    modifies tree`alPre, tree`scratch, (if tree.alPre == null then {} else {tree.alPre}),
      (if tree.alPre == null then {} else {tree.alPre.arr})
    ensures tree.Valid() && tree.view == old(tree.view) && fresh(tree.scratch - old(tree.scratch))
    ensures crash <==> Query(tree.view.forest, name).Crash?
    ensures !crash ==> Chosen(routes.table, Query(tree.view.forest, name), hop)
  {
    ghost var a := Query(tree.view.forest, name);
    var list, lastPre, allPre;
    crash, list, lastPre, allPre := tree.GetObjList(name);
    hop := NO_HOP;
    if !crash && list != null {
      hop := ChooseHop(routes, list, lastPre, allPre, a);
    }
  }

  // ---------------------------------------------------------------- what the choice means

  /** The line of a destination in a shortest path table. */
  lemma LineOf(t: seq<RouteEntry>, n: nat, known: set<nat>, g: Graph, x: nat) returns (i: nat)
    requires RoutesOk(t, n, known, g) && x in known
    ensures i < |t| && t[i].dest == x && EntryOk(t[i], n, g)
  {
    i :| 0 <= i < |t| && t[i].dest == x;
  }

  /** A choice among candidates, none of them reachable, finds nothing. */
  lemma NoneReached(t: seq<RouteEntry>, n: nat, known: set<nat>, g: Graph, c: set<nat>, cost0: int, cost: int, hop: nat)
    requires RoutesOk(t, n, known, g) && Lowest(t, c, cost0, NO_HOP, cost, hop) && Reached(g, n, c * known) == {}
    ensures hop == NO_HOP && (cost0 >= INFINITY ==> cost >= INFINITY)
  {
    if cost != cost0 {
      var i :| 0 <= i < |t| && t[i].dest in c && t[i].cost == cost && t[i].nextHop == hop;
      assert EntryOk(t[i], n, g) && t[i].dest !in Reached(g, n, c * known);
    }
  }

  lemma CostBelow(t: seq<RouteEntry>, n: nat, known: set<nat>, g: Graph, c: set<nat>, cost: int, y: nat, k: nat)
    requires RoutesOk(t, n, known, g) && y in c && y in known && Dist(g, n, y, k)
    requires forall i :: 0 <= i < |t| && t[i].dest in c ==> cost <= t[i].cost
    ensures cost <= k
  {
    var i := LineOf(t, n, known, g, y);
  }

  /** A line with a reachable destination gives a first step towards it. */
  lemma LineTowards(e: RouteEntry, n: nat, known: set<nat>, g: Graph)
    requires EntryOk(e, n, g) && Reachable(g, n, e.dest) && n in known && NO_HOP !in known
    requires forall b: nat :: (n, b) in g ==> b in known
    ensures e.cost >= 0 && Dist(g, n, e.dest, e.cost) && Towards(g, n, e.nextHop, e.dest, e.cost) && e.nextHop != NO_HOP
  {
  }

  /** If some candidate can be reached, the chosen line is that of a candidate that can be reached. */
  lemma ChosenLine(t: seq<RouteEntry>, n: nat, known: set<nat>, g: Graph, c: set<nat>, cost0: int, cost: int,
          hop: nat) returns (i: nat)
    requires RoutesOk(t, n, known, g) && Lowest(t, c, cost0, NO_HOP, cost, hop) && cost0 >= INFINITY
    requires Reached(g, n, c * known) != {}
    ensures i < |t| && t[i].dest in Reached(g, n, c * known) && t[i].cost == cost && t[i].nextHop == hop
  {
    var z :| z in Reached(g, n, c * known);
    var iz := LineOf(t, n, known, g, z);
    assert t[iz].cost <= GRAPHSIZE < INFINITY;
    i :| 0 <= i < |t| && t[i].dest in c && t[i].cost == cost && t[i].nextHop == hop;
    assert EntryOk(t[i], n, g);
  }

  /** A choice with a reachable candidate leads towards a nearest one. */
  lemma SomeReached(t: seq<RouteEntry>, n: nat, known: set<nat>, g: Graph, c: set<nat>, cost0: int, cost: int, hop: nat)
    requires RoutesOk(t, n, known, g) && Lowest(t, c, cost0, NO_HOP, cost, hop) && cost0 >= INFINITY
    requires Reached(g, n, c * known) != {}
    requires forall b: nat :: (n, b) in g ==> b in known
    requires n in known && NO_HOP !in known
    ensures hop != NO_HOP && HopOk(g, n, Reached(g, n, c * known), hop)
  {
    var i := ChosenLine(t, n, known, g, c, cost0, cost, hop);
    LineTowards(t[i], n, known, g);
    forall y: nat, k: nat | y in Reached(g, n, c * known) && Dist(g, n, y, k)
      ensures cost <= k
    {
      CostBelow(t, n, known, g, c, cost, y, k);
    }
    assert Nearest(g, n, Reached(g, n, c * known), t[i].dest, cost);
  }

  /** The next hop of a lookup is a step on a shortest walk to a nearest goal; there is none exactly if there is
      no goal. */
  lemma ChosenMeans(t: seq<RouteEntry>, n: nat, known: set<nat>, g: Graph, a: Answer, hop: nat)
    requires RoutesOk(t, n, known, g) && Chosen(t, a, hop) && !a.Crash?
    requires forall b: nat :: (n, b) in g ==> b in known
    requires n in known && NO_HOP !in known
    ensures HopOk(g, n, Goals(g, n, a, known), hop)
  {
    if a.Found? && a.ids.Some? {
      var c1, c2 := IdSet(a.ids) - SetOf(a.allPre), IdSet(a.lastPre);
      var cost1: int, hop1: nat :|
        && Lowest(t, c1, INT_MAX, NO_HOP, cost1, hop1)
        && if hop1 == NO_HOP && a.lastPre.Some? then exists cost2: int ::
          Lowest(t, IdSet(a.lastPre), cost1, hop1, cost2, hop)
           else hop == hop1;
      if Reached(g, n, c1 * known) != {} {
        SomeReached(t, n, known, g, c1, INT_MAX, cost1, hop1);
      } else {
        NoneReached(t, n, known, g, c1, INT_MAX, cost1, hop1);
        if a.lastPre.Some? {
          var cost2: int :| Lowest(t, c2, cost1, NO_HOP, cost2, hop);
          if Reached(g, n, c2 * known) != {} {
            SomeReached(t, n, known, g, c2, cost1, cost2, hop);
          } else {
            NoneReached(t, n, known, g, c2, cost1, cost2, hop);
          }
        }
      }
    }
  }

  // ---------------------------------------------------------------- the reply

  datatype Reply = Segfault | Absent | Here(path: string) | There(hop: nat, nb: Neighbour)

  ghost function MapOfState(s: Node): Graph
  {
    Topology(s.nid, ValidIds(s.nbs), s.lsas)
  }

  /** The next hop a correct lookup of `name` may choose in this state. */
  ghost predicate GoodHop(s: Node, f: Forest, name: string, hop: nat)
  {
    HopOk(MapOfState(s), s.nid, Goals(MapOfState(s), s.nid, Query(f, name), s.lsas.Keys), hop)
  }

  lemma EdgesKnown(s: Node)
    ensures forall a: nat, b: nat :: (a, b) in MapOfState(s) ==> a in s.lsas && b in s.lsas
    ensures forall b: nat :: (s.nid, b) in MapOfState(s) ==> b in ValidIds(s.nbs)
  {
  }

  /** Every real next hop in the routing table but the node itself is a neighbour that is up. */
  lemma TableHopsLive(s: Node, table: seq<RouteEntry>, i: nat)
    requires RoutesFor(table, s) && i < |table| && table[i].nextHop != NO_HOP && table[i].nextHop != s.nid
    ensures table[i].nextHop in MapOf(s.nbs) && exists k ::
      0 <= k < |s.nbs| && s.nbs[k].key == table[i].nextHop && s.nbs[k].val.valid
  {
    EdgesKnown(s);
    var k :| 0 <= k < |s.nbs| && s.nbs[k].val.valid && s.nbs[k].key == table[i].nextHop;
    MapOfAt(s.nbs, k);
  }

  /** A real next hop other than the node itself is in the neighbour table and marked up. */
  lemma HopIsNeighbour(s: Node, f: Forest, name: string, hop: nat)
    requires GoodHop(s, f, name, hop) && hop != NO_HOP && hop != s.nid
    ensures hop in MapOf(s.nbs) && exists i :: 0 <= i < |s.nbs| && s.nbs[i].key == hop && s.nbs[i].val.valid
  {
    EdgesKnown(s);
    var i :| 0 <= i < |s.nbs| && s.nbs[i].val.valid && s.nbs[i].key == hop;
    MapOfAt(s.nbs, i);
  }

  lemma TableHop(s: Node, table: seq<RouteEntry>, f: Forest, name: string, hop: nat)
    requires RoutesFor(table, s) && s.nid in s.lsas && !Query(f, name).Crash? && Chosen(table, Query(f, name), hop)
    ensures GoodHop(s, f, name, hop)
  {
    EdgesKnown(s);
    ChosenMeans(table, s.nid, s.lsas.Keys, MapOfState(s), Query(f, name), hop);
  }

  /** Only the scratch array of the tree changes. */
  method NextHopIn(d: Daemon, name: string) returns (crash: bool, hop: nat)
    requires d.TablesOk() && d.tree.Valid()
    requires forall i, j :: 0 <= i < j < |d.routes.table| ==> d.routes.table[i].dest < d.routes.table[j].dest
    modifies d.tree`alPre, d.tree`scratch, (if d.tree.alPre == null then {} else {d.tree.alPre}),
      (if d.tree.alPre == null then {} else {d.tree.alPre.arr})
    ensures d.TablesOk() && d.tree.Valid() && d.State() == old(d.State()) && d.tree.view == old(d.tree.view)
    ensures fresh(d.tree.scratch - old(d.tree.scratch))
    ensures d.routes.table == old(d.routes.table) && (crash <==> Query(d.tree.view.forest, name).Crash?)
    ensures !crash ==> Chosen(d.routes.table, Query(d.tree.view.forest, name), hop)
  {
    ghost var scratch: set<object> := if d.tree.alPre == null then {} else {d.tree.alPre, d.tree.alPre.arr};
    assert d !in scratch && d.tree !in scratch && d.nbs !in scratch && d.lsas !in scratch && d.files !in scratch &&
      d.routes !in scratch;
    crash, hop := NextHopFor(d.tree, d.routes, name);
  }

  /** The next hop that the daemon's tables give. */
  method HopFor(d: Daemon, name: string) returns (crash: bool, hop: nat)
    requires d.Valid()
    modifies d.tree`alPre, d.tree`scratch, (if d.tree.alPre == null then {} else {d.tree.alPre}),
      (if d.tree.alPre == null then {} else {d.tree.alPre.arr})
    ensures d.Valid() && d.State() == old(d.State()) && d.tree.view == old(d.tree.view)
    ensures fresh(d.tree.scratch - old(d.tree.scratch))
    ensures crash <==> Query(d.tree.view.forest, name).Crash?
    ensures !crash ==> GoodHop(d.State(), d.tree.view.forest, name, hop)
  {
    ghost var s, t, f := d.State(), d.routes.table, d.tree.view.forest;
    crash, hop := NextHopIn(d, name);
    if !crash {
      TableHop(s, t, f, name, hop);
    }
  }

  /** What is answered when the next hop is known. */
  ghost function ReplyFor(nid: nat, nbs: map<nat, Neighbour>, files: map<string, string>, name: string, hop: nat): Reply
  {
    if hop == NO_HOP || hop !in nbs then Absent
    else if hop == nid then (if name in files then Here(files[name]) else Absent)
    else There(hop, nbs[hop])
  }

  method ReplyTo(nid: nat, nbs: HashTable<nat, Neighbour>, files: HashTable<string, string>, name: string,
          hop: nat) returns (reply: Reply)
    requires nbs.Valid() && files.Valid()
    ensures reply == ReplyFor(nid, nbs.Model(), files.Model(), name, hop)
  {
    if hop == NO_HOP {
      return Absent;
    }
    var nb := nbs.Find(hop);
    if nb.None? {
      return Absent;
    }
    if hop == nid {
      var p := files.Find(name);
      reply := if p.Some? then Here(p.value) else Absent;
    } else {
      reply := There(hop, nb.value);
    }
  }

  /** What a lookup of `name` may answer in this state: it follows a null pointer if the query does, and otherwise
      answers according to a correct next hop. */
  ghost predicate Replies(s: Node, f: Forest, paths: map<string, string>, name: string, reply: Reply)
  {
    if Query(f, name).Crash? then reply == Segfault
    else exists hop: nat :: GoodHop(s, f, name, hop) && reply == ReplyFor(s.nid, MapOf(s.nbs), paths, name, hop)
  }

  /** lookup_file. */
  method LookupFile(d: Daemon, name: string) returns (reply: Reply)
    requires d.Valid()
    modifies d.tree`alPre, d.tree`scratch, (if d.tree.alPre == null then {} else {d.tree.alPre}),
      (if d.tree.alPre == null then {} else {d.tree.alPre.arr})
    ensures d.Valid() && d.State() == old(d.State()) && d.tree.view == old(d.tree.view)
    ensures fresh(d.tree.scratch - old(d.tree.scratch))
    ensures Replies(d.State(), d.tree.view.forest, d.files.Model(), name, reply)
    ensures reply == Segfault <==> Query(d.tree.view.forest, name) == Crash
  {
    var crash, hop := HopFor(d, name);
    if crash {
      return Segfault;
    }
    reply := ReplyIn(d, name, hop);
  }

  /** Nothing changes by the reply itself. */
  method ReplyIn(d: Daemon, name: string, hop: nat) returns (reply: Reply)
    requires d.Valid()
    ensures d.Valid() && d.State() == old(d.State()) && d.tree.view == old(d.tree.view)
    ensures d.tree.scratch == old(d.tree.scratch)
    ensures reply == ReplyFor(d.nid, d.nbs.Model(), d.files.Model(), name, hop)
  {
    reply := ReplyTo(d.nid, d.nbs, d.files, name, hop);
  }
}
