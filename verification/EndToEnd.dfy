/** Following the replies from node to node (src/forward.c:54-136). */
module EndToEnd {
  import opened HashTables
  import opened Types
  import opened Graphs
  import opened RouteTables
  import opened Protocol
  import opened LocalState
  import opened Ageing
  import opened Forests
  import opened Queries
  import opened Forwarding
  import opened Relaying

  // ---------------------------------------------------------------- nodes that agree

  /** A node may be in its own neighbour table, and then only its own map has the loop at it. */
  ghost function LinkMap(s: Node): Graph
  {
    Plain(MapOfState(s))
  }

  lemma SameReached(g: Graph, n: nat, c: set<nat>)
    ensures Reached(g, n, c) == Reached(Plain(g), n, c)
  {
    forall x: nat
      ensures Reachable(g, n, x) <==> Reachable(Plain(g), n, x)
    {
      PlainDist(g, n, x, 0);
    }
  }

  lemma SameNearestPlain(g: Graph, n: nat, goals: set<nat>, x: nat, d: nat)
    requires Nearest(g, n, goals, x, d)
    ensures Nearest(Plain(g), n, goals, x, d)
  {
    PlainDist(g, n, x, d);
    forall y: nat, k: nat | y in goals && Dist(Plain(g), n, y, k)
      ensures d <= k
    {
      PlainDist(g, n, y, k);
    }
  }

  lemma HopPlain(g: Graph, n: nat, goals: set<nat>, hop: nat)
    requires HopOk(g, n, goals, hop)
    ensures HopOk(Plain(g), n, goals, hop)
  {
    if goals != {} {
      var x: nat, d: nat :| Nearest(g, n, goals, x, d) && Towards(g, n, hop, x, d);
      SameNearestPlain(g, n, goals, x, d);
      if x != n {
        PlainDist(g, hop, x, d - 1);
        SameDist(g, n, hop, x, d, d - 1);
        assert (n, hop) in Plain(g);
      }
      assert Towards(Plain(g), n, hop, x, d);
    }
  }

  /** What a daemon finds on its own map is right on the map without loops. */
  lemma GoodOnMap(s: Node, f: Forest, name: string, hop: nat)
    requires GoodHop(s, f, name, hop)
    ensures HopOk(LinkMap(s), s.nid, Goals(LinkMap(s), s.nid, Query(f, name), s.lsas.Keys), hop)
  {
    var g, a := MapOfState(s), Query(f, name);
    SameReached(g, s.nid, Exact(a, s.lsas.Keys));
    SameReached(g, s.nid, Fallback(a, s.lsas.Keys));
    HopPlain(g, s.nid, Goals(g, s.nid, a, s.lsas.Keys), hop);
  }

  /** What a lookup at one node depends on. */
  datatype Site = Site(s: Node, forest: Forest, paths: map<string, string>)

  /** Node n sees the map `g` and the directory `dir`, and announces its own files. */
  ghost predicate SiteOk(site: Site, n: nat, known: set<nat>, g: Graph, dir: map<string, set<nat>>)
  {
    && site.s.nid == n && site.s.lsas.Keys == known && NO_HOP !in known && LinkMap(site.s) == g
    && Represents(site.forest, dir) && site.s.dir == dir && OwnOk(site.s) && DirSound(site.s) && DirComplete(site.s)
    && IsNb(site.s.nbs, n) && forall x :: x in site.s.files <==> x in site.paths
  }

  ghost predicate Agreed(sites: map<nat, Site>, g: Graph, dir: map<string, set<nat>>)
  {
    forall n {:trigger SiteOk(sites[n], n, sites.Keys, g, dir)} :: n in sites ==>
      SiteOk(sites[n], n, sites.Keys, g, dir)
  }

  ghost function GoalsAt(site: Site, name: string): set<nat>
  {
    Goals(LinkMap(site.s), site.s.nid, Query(site.forest, name), site.s.lsas.Keys)
  }

  /** The lookup ends among the exact candidates, not among those of a shorter prefix. */
  ghost predicate ExactAt(site: Site, name: string)
  {
    ExactPhase(LinkMap(site.s), site.s.nid, Query(site.forest, name), site.s.lsas.Keys)
  }

  ghost predicate ExactPhase(g: Graph, n: nat, a: Answer, known: set<nat>)
  {
    Reached(g, n, Exact(a, known)) != {}
  }

  /** The nearest goal is d hops away. */
  ghost predicate Away(site: Site, name: string, d: nat)
  {
    AwayIn(LinkMap(site.s), site.s.nid, GoalsAt(site, name), d)
  }

  ghost predicate AwayIn(g: Graph, n: nat, goals: set<nat>, d: nat)
  {
    exists x: nat :: Nearest(g, n, goals, x, d)
  }

  // ---------------------------------------------------------------- one hop

  lemma SameSets(a: Site, b: Site, n: nat, m: nat, known: set<nat>, g: Graph, dir: map<string, set<nat>>, name: string)
    requires SiteOk(a, n, known, g, dir) && SiteOk(b, m, known, g, dir)
    ensures Exact(Query(a.forest, name), known) == Exact(Query(b.forest, name), known)
    ensures Fallback(Query(a.forest, name), known) == Fallback(Query(b.forest, name), known)
    ensures Query(a.forest, name).Crash? <==> Query(b.forest, name).Crash?
  {
    SameQuery(a.forest, b.forest, dir, name);
  }

  lemma ReachedFurther(g: Graph, n: nat, h: nat, c: set<nat>)
    requires (n, h) in g
    ensures Reached(g, h, c) <= Reached(g, n, c)
  {
    forall x | x in Reached(g, h, c)
      ensures Reachable(g, n, x)
    {
      var k: nat :| Hops(g, h, x, k);
      HopsPrepend(g, n, h, x, k);
    }
  }

  /** Seen from the next hop, the goals are among those seen before, in the same phase, and x is still one. */
  lemma GoalsNarrow(g: Graph, n: nat, h: nat, a: Answer, b: Answer, known: set<nat>, x: nat)
    requires (n, h) in g && Exact(a, known) == Exact(b, known) && Fallback(a, known) == Fallback(b, known)
    requires x in Goals(g, n, a, known) && Reachable(g, h, x)
    ensures x in Goals(g, h, b, known) && Goals(g, h, b, known) <= Goals(g, n, a, known)
    ensures ExactPhase(g, n, a, known) <==> ExactPhase(g, h, b, known)
  {
    ReachedFurther(g, n, h, Exact(a, known));
    ReachedFurther(g, n, h, Fallback(a, known));
    assert x in Exact(a, known) && Reached(g, n, Exact(a, known)) != {} ==> x in Reached(g, h, Exact(b, known));
  }

  /** The nearest goal is one hop nearer at the next hop. */
  lemma OneNearer(g: Graph, n: nat, h: nat, goals: set<nat>, goals': set<nat>, x: nat, d: nat)
    requires (n, h) in g && Nearest(g, n, goals, x, d) && d > 0 && Dist(g, h, x, d - 1)
    requires x in goals' && goals' <= goals
    ensures Nearest(g, h, goals', x, d - 1)
  {
    forall y: nat, k: nat | y in goals' && Dist(g, h, y, k)
      ensures d - 1 <= k
    {
      HopsPrepend(g, n, h, y, k);
      var k' := DistExists(g, n, y, k + 1);
    }
  }

  lemma SameNearest(g: Graph, n: nat, goals: set<nat>, d: nat, e: nat)
    requires AwayIn(g, n, goals, d) && AwayIn(g, n, goals, e)
    ensures d == e
  {
    var x: nat :| Nearest(g, n, goals, x, d);
    var y: nat :| Nearest(g, n, goals, y, e);
  }

  lemma SameDist(g: Graph, u: nat, w: nat, v: nat, a: nat, b: nat)
    requires Dist(g, u, v, a) && Dist(g, w, v, b)
    ensures u == w ==> a == b
  {
  }

  /** What the chosen hop is at distance d. */
  lemma HopAt(g: Graph, n: nat, goals: set<nat>, hop: nat, d: nat) returns (x: nat)
    requires AwayIn(g, n, goals, d) && HopOk(g, n, goals, hop)
    ensures Nearest(g, n, goals, x, d)
    ensures if d == 0 then x == n && hop == n else (n, hop) in g && hop != n && Dist(g, hop, x, d - 1)
  {
    var e: nat;
    x, e :| Nearest(g, n, goals, x, e) && Towards(g, n, hop, x, e);
    SameNearest(g, n, goals, d, e);
    assert Hops(g, n, n, 0);
    if d > 0 {
      assert x != n;
      SameDist(g, n, hop, x, d, d - 1);
    }
  }

  lemma NextAway(g: Graph, n: nat, hop: nat, a: Answer, b: Answer, known: set<nat>, x: nat, d: nat)
    requires (n, hop) in g && Exact(a, known) == Exact(b, known) && Fallback(a, known) == Fallback(b, known)
    requires Nearest(g, n, Goals(g, n, a, known), x, d) && d > 0 && Dist(g, hop, x, d - 1)
    ensures AwayIn(g, hop, Goals(g, hop, b, known), d - 1) && Goals(g, hop, b, known) <= Goals(g, n, a, known)
    ensures ExactPhase(g, n, a, known) <==> ExactPhase(g, hop, b, known)
  {
    GoalsNarrow(g, n, hop, a, b, known, x);
    OneNearer(g, n, hop, Goals(g, n, a, known), Goals(g, hop, b, known), x, d);
  }

  /** The next node is one hop nearer, in the same phase, and has no new goals. */
  ghost predicate Moved(here: Site, next: Site, name: string, d: int)
  {
    && d > 0 && Away(next, name, d - 1) && GoalsAt(next, name) <= GoalsAt(here, name)
    && (ExactAt(next, name) <==> ExactAt(here, name))
  }

  /** One step of a lookup: at distance 0 it ends here; otherwise the next hop is another node, one nearer, with
      the same phase and no new goals. */
  lemma HopStep(sites: map<nat, Site>, g: Graph, dir: map<string, set<nat>>, name: string, n: nat, hop: nat, d: nat)
    requires Agreed(sites, g, dir) && n in sites && Away(sites[n], name, d)
    requires GoodHop(sites[n].s, sites[n].forest, name, hop)
    ensures d == 0 <==> hop == n
    ensures hop == n ==> n in GoalsAt(sites[n], name)
    ensures hop != n ==> hop in sites && Moved(sites[n], sites[hop], name, d)
  {
    var known := sites.Keys;
    assert SiteOk(sites[n], n, known, g, dir);
    GoodOnMap(sites[n].s, sites[n].forest, name, hop);
    var x := HopAt(g, n, GoalsAt(sites[n], name), hop, d);
    if d > 0 {
      EdgesKnown(sites[n].s);
      assert SiteOk(sites[hop], hop, known, g, dir);
      SameSets(sites[n], sites[hop], n, hop, known, g, dir, name);
      NextAway(g, n, hop, Query(sites[n].forest, name), Query(sites[hop].forest, name), known, x, d);
    }
  }

  // ---------------------------------------------------------------- whole journeys

  /** `replies` are the answers of the nodes on the path, each of which but the last names the next node. */
  ghost predicate Journey(sites: map<nat, Site>, name: string, path: seq<nat>, replies: seq<Reply>)
  {
    && path != [] && |replies| == |path| && (forall i :: 0 <= i < |path| ==> path[i] in sites)
    && (forall i {:trigger Asked(sites, name, path, replies, i)} :: 0 <= i < |path| ==>
      Asked(sites, name, path, replies, i))
    && forall i :: 0 <= i < |path| - 1 ==> replies[i].There? && replies[i].hop == path[i + 1]
  }

  ghost predicate Asked(sites: map<nat, Site>, name: string, path: seq<nat>, replies: seq<Reply>, i: nat)
    requires i < |path| == |replies| && path[i] in sites
  {
    Relayed(name, i).Some? && MayAnswer(sites[path[i]], Relayed(name, i).value, replies[i])
  }

  /** The node may give this answer. */
  ghost predicate MayAnswer(site: Site, name: string, reply: Reply)
  {
    Replies(site.s, site.forest, site.paths, name, reply)
  }

  /** Where a journey stands that began `d` hops away from its nearest goal and has made i hops. */
  ghost predicate Closer(start: Site, here: Site, name: string, d: nat, i: nat)
  {
    && i <= d && Away(here, name, d - i) && GoalsAt(here, name) <= GoalsAt(start, name)
    && (ExactAt(here, name) <==> ExactAt(start, name))
  }

  /** A lookup with a goal does not follow a null pointer. */
  lemma GoalNoCrash(site: Site, name: string, d: nat)
    requires Away(site, name, d)
    ensures !Query(site.forest, name).Crash?
  {
  }

  /** An answer by a correct next hop. */
  ghost predicate ByHop(site: Site, name: string, reply: Reply, hop: nat)
  {
    GoodHop(site.s, site.forest, name, hop) && reply == ReplyFor(site.s.nid, MapOf(site.s.nbs), site.paths, name, hop)
  }

  /** An answer at distance d: at distance 0 it is that of the node's own file table; otherwise it is the record of
      another node, one nearer, with the same phase and no new goals. */
  lemma ReplyStep(sites: map<nat, Site>, g: Graph, dir: map<string, set<nat>>, name: string, n: nat, reply: Reply,
          hop: nat, d: nat)
    requires Agreed(sites, g, dir) && n in sites && Away(sites[n], name, d) && ByHop(sites[n], name, reply, hop)
    ensures d == 0 ==> n in GoalsAt(sites[n], name) && reply == OwnReply(sites[n], name)
    ensures d > 0 ==> NamesNext(sites, name, n, reply, d)
  {
    HopStep(sites, g, dir, name, n, hop, d);
    SelfInTable(sites, g, dir, n);
    if hop != n {
      NotNoHop(sites, g, dir, hop);
      HopIsNeighbour(sites[n].s, sites[n].forest, name, hop);
    }
  }

  ghost function OwnReply(site: Site, name: string): Reply
  {
    if name in site.paths then Here(site.paths[name]) else Absent
  }

  ghost predicate NamesNext(sites: map<nat, Site>, name: string, n: nat, reply: Reply, d: int)
    requires n in sites
  {
    && reply.There? && reply.hop != n && reply.hop in sites && Moved(sites[n], sites[reply.hop], name, d)
    && reply.hop in MapOf(sites[n].s.nbs) && reply.nb == MapOf(sites[n].s.nbs)[reply.hop]
  }

  lemma SelfInTable(sites: map<nat, Site>, g: Graph, dir: map<string, set<nat>>, n: nat)
    requires Agreed(sites, g, dir) && n in sites
    ensures sites[n].s.nid == n && n in MapOf(sites[n].s.nbs) && n != NO_HOP
  {
    assert SiteOk(sites[n], n, sites.Keys, g, dir);
    var nbs := sites[n].s.nbs;
    var i :| 0 <= i < |nbs| && nbs[i].key == n;
    MapOfAt(nbs, i);
  }

  lemma NotNoHop(sites: map<nat, Site>, g: Graph, dir: map<string, set<nat>>, hop: nat)
    requires Agreed(sites, g, dir) && hop in sites
    ensures hop != NO_HOP
  {
    assert SiteOk(sites[hop], hop, sites.Keys, g, dir);
  }

  /** If all nodes agree on map and directory, every journey of a lookup lowers the distance to the nearest goal by
      exactly one per hop, and keeps the phase of the lookup. */
  lemma Converges(sites: map<nat, Site>, g: Graph, dir: map<string, set<nat>>, name: string,
          path: seq<nat>, replies: seq<Reply>, d: nat, i: nat)
    requires Agreed(sites, g, dir) && Journey(sites, name, path, replies) && Relayable(name)
    requires Away(sites[path[0]], name, d) && i < |path|
    ensures Closer(sites[path[0]], sites[path[i]], name, d, i)
  {
    hide Closer, Away;
    var k: nat := 0;
    CloserStart(sites[path[0]], name, d);
    while k < i
      invariant k <= i && Closer(sites[path[0]], sites[path[k]], name, d, k)
    {
      k := k + 1;
      StageCloser(sites, g, dir, name, path, replies, d, k);
    }
  }

  lemma CloserStart(site: Site, name: string, d: nat)
    requires Away(site, name, d)
    ensures Closer(site, site, name, d, 0)
  {
  }

  lemma StageCloser(sites: map<nat, Site>, g: Graph, dir: map<string, set<nat>>, name: string, path: seq<nat>,
          replies: seq<Reply>, d: nat, i: nat)
    requires Agreed(sites, g, dir) && Journey(sites, name, path, replies) && Relayable(name) && 0 < i < |path|
    requires Closer(sites[path[0]], sites[path[i - 1]], name, d, i - 1)
    ensures Closer(sites[path[0]], sites[path[i]], name, d, i)
  {
    StageReply(sites, g, dir, name, path, replies, i - 1, d - (i - 1));
    OwnIsNotThere(sites[path[i - 1]], name);
    CloserStep(sites[path[0]], sites[path[i - 1]], sites[path[i]], name, d, i);
  }

  lemma OwnIsNotThere(site: Site, name: string)
    ensures !OwnReply(site, name).There?
  {
  }

  lemma AskedHop(sites: map<nat, Site>, name: string, path: seq<nat>, replies: seq<Reply>, i: nat, d: nat)
    returns (hop: nat)
    requires Journey(sites, name, path, replies) && Relayable(name) && i < |path| && Away(sites[path[i]], name, d)
    ensures ByHop(sites[path[i]], name, replies[i], hop)
  {
    assert Asked(sites, name, path, replies, i);
    RelayedSame(name, i);
    GoalNoCrash(sites[path[i]], name, d);
    var site := sites[path[i]];
    hop :| GoodHop(site.s, site.forest, name, hop)
           && replies[i] == ReplyFor(site.s.nid, MapOf(site.s.nbs), site.paths, name, hop);
  }

  /** The answer at stage i of a journey whose goals are e hops away. */
  lemma StageReply(sites: map<nat, Site>, g: Graph, dir: map<string, set<nat>>, name: string, path: seq<nat>,
          replies: seq<Reply>, i: nat, e: nat)
    requires Agreed(sites, g, dir) && Journey(sites, name, path, replies) && Relayable(name)
    requires i < |path| && Away(sites[path[i]], name, e)
    ensures e == 0 ==> path[i] in GoalsAt(sites[path[i]], name) && replies[i] == OwnReply(sites[path[i]], name)
    ensures e > 0 ==> NamesNext(sites, name, path[i], replies[i], e)
  {
    var hop := AskedHop(sites, name, path, replies, i, e);
    ReplyStep(sites, g, dir, name, path[i], replies[i], hop, e);
  }

  lemma CloserStep(start: Site, here: Site, next: Site, name: string, d: nat, i: nat)
    requires i > 0 && Closer(start, here, name, d, i - 1) && Moved(here, next, name, d - (i - 1))
    ensures Closer(start, next, name, d, i)
  {
    assert d - (i - 1) - 1 == d - i;
  }

  lemma OneAway(site: Site, name: string, d: nat, e: nat)
    requires Away(site, name, d) && Away(site, name, e)
    ensures d == e
  {
    SameNearest(LinkMap(site.s), site.s.nid, GoalsAt(site, name), d, e);
  }

  lemma CloserAway(start: Site, here: Site, name: string, d: nat, i: nat)
    requires Closer(start, here, name, d, i)
    ensures i <= d && Away(here, name, d - i)
  {
  }

  /** A node has one distance only. */
  lemma OneDistance(start: Site, a: Site, name: string, d: nat, i: nat, j: nat)
    requires Closer(start, a, name, d, i) && Closer(start, a, name, d, j)
    ensures i == j
  {
    CloserAway(start, a, name, d, i);
    CloserAway(start, a, name, d, j);
    OneAway(a, name, d - i, d - j);
  }

  /** No journey visits a node twice. */
  lemma NeverLoops(sites: map<nat, Site>, g: Graph, dir: map<string, set<nat>>, name: string, path: seq<nat>,
          replies: seq<Reply>, d: nat, i: nat, j: nat)
    requires Agreed(sites, g, dir) && Journey(sites, name, path, replies) && Relayable(name)
    requires Away(sites[path[0]], name, d) && i < j < |path|
    ensures path[i] != path[j]
  {
    Converges(sites, g, dir, name, path, replies, d, i);
    Converges(sites, g, dir, name, path, replies, d, j);
    if path[i] == path[j] {
      OneDistance(sites[path[0]], sites[path[i]], name, d, i, j);
    }
  }

  /** The request goes on until exactly d hops are made, d being the distance of the nearest goal from the start:
      before that the last reply names another neighbour, and then it is that of the file table of a goal. */
  lemma StopsAtGoal(sites: map<nat, Site>, g: Graph, dir: map<string, set<nat>>, name: string, path: seq<nat>,
          replies: seq<Reply>, d: nat)
    requires Agreed(sites, g, dir) && Journey(sites, name, path, replies) && Relayable(name)
    requires Away(sites[path[0]], name, d)
    ensures |path| - 1 <= d
    ensures |path| - 1 < d ==> NamesNext(sites, name, path[|path| - 1], replies[|path| - 1], d - (|path| - 1))
    ensures |path| - 1 == d ==> replies[|path| - 1] == OwnReply(sites[path[|path| - 1]], name)
    ensures |path| - 1 == d ==>
      path[|path| - 1] in GoalsAt(sites[path[0]], name) && path[|path| - 1] in GoalsAt(sites[path[|path| - 1]], name)
    ensures ExactAt(sites[path[|path| - 1]], name) <==> ExactAt(sites[path[0]], name)
  {
    hide Closer, NamesNext, Away, OwnReply;
    Converges(sites, g, dir, name, path, replies, d, |path| - 1);
    StageEnd(sites, g, dir, name, path, replies, d, |path| - 1);
  }

  lemma StageEnd(sites: map<nat, Site>, g: Graph, dir: map<string, set<nat>>, name: string, path: seq<nat>,
          replies: seq<Reply>, d: nat, k: nat)
    requires Agreed(sites, g, dir) && Journey(sites, name, path, replies) && Relayable(name) && k < |path|
    requires Closer(sites[path[0]], sites[path[k]], name, d, k)
    ensures k <= d && (k < d ==> NamesNext(sites, name, path[k], replies[k], d - k))
    ensures k == d ==> path[k] in GoalsAt(sites[path[k]], name) && replies[k] == OwnReply(sites[path[k]], name)
    ensures k == d ==> path[k] in GoalsAt(sites[path[0]], name)
    ensures ExactAt(sites[path[k]], name) <==> ExactAt(sites[path[0]], name)
  {
    CloserAway(sites[path[0]], sites[path[k]], name, d, k);
    CloserGoals(sites[path[0]], sites[path[k]], name, d, k);
    StageReply(sites, g, dir, name, path, replies, k, d - k);
  }

  lemma CloserGoals(start: Site, here: Site, name: string, d: nat, i: nat)
    requires Closer(start, here, name, d, i)
    ensures GoalsAt(here, name) <= GoalsAt(start, name) && (ExactAt(here, name) <==> ExactAt(start, name))
  {
  }

  /** A name in the directory has its own node, and that is the deepest one on its path. */
  lemma NameDepth(f: Forest, dir: map<string, set<nat>>, name: string)
    requires Represents(f, dir) && name in dir
    ensures Fields(name) != [] && Depth(f, Fields(name)) == |Fields(name)|
    ensures IdsAt(f, Fields(name)).Some? && IdSet(IdsAt(f, Fields(name))) == dir[name]
  {
    var fields := Fields(name);
    FieldsJoin(name, 0);
    assert HoldsAt(f, dir, name);
    assert fields[..|fields|] == fields;
    DepthLaw(f, fields, |fields|);
  }

  /** The answer for such a node. */
  lemma OwnNodeAnswer(f: Forest, name: string)
    requires Fields(name) != [] && Depth(f, Fields(name)) == |Fields(name)| && IdsAt(f, Fields(name)).Some?
    ensures Query(f, name).Found? && Query(f, name).ids == IdsAt(f, Fields(name))
  {
    QueryLaw(f, name);
    assert Fields(name)[..|Fields(name)|] == Fields(name);
  }

  /** Its array is then the last prefix as well, if it is not empty. */
  lemma OwnNodeLast(f: Forest, name: string)
    requires Fields(name) != [] && Depth(f, Fields(name)) == |Fields(name)| && IdSet(IdsAt(f, Fields(name))) != {}
    requires IdsAt(f, Fields(name)).Some?
    ensures Query(f, name).Found? && Query(f, name).lastPre == IdsAt(f, Fields(name))
  {
    QueryLaw(f, name);
    assert Fields(name)[..|Fields(name)|] == Fields(name);
    EmptyList(IdList(IdsAt(f, Fields(name))));
  }

  /** The nodes to which the directory leads for a name. */
  ghost function Holders(dir: map<string, set<nat>>, name: string): set<nat>
  {
    if name in dir then dir[name] else {}
  }

  /** The two kinds of candidates for a name that is held by somebody. */
  lemma HeldCandidates(f: Forest, dir: map<string, set<nat>>, name: string, known: set<nat>)
    requires Represents(f, dir) && Holders(dir, name) != {}
    ensures !Query(f, name).Crash? && Exact(Query(f, name), known) <= Holders(dir, name) * known
    ensures Fallback(Query(f, name), known) == Holders(dir, name) * known
  {
    NameDepth(f, dir, name);
    OwnNodeAnswer(f, name);
    OwnNodeLast(f, name);
  }

  /** Only holders are goals of such a lookup, in whichever phase it ends, and there is one as soon as a holder can be
      reached. */
  lemma HeldGoals(g: Graph, n: nat, f: Forest, dir: map<string, set<nat>>, name: string, known: set<nat>)
    requires Represents(f, dir) && Holders(dir, name) != {}
    ensures Goals(g, n, Query(f, name), known) <= Holders(dir, name)
    ensures Goals(g, n, Query(f, name), known) == {} <==> Reached(g, n, Holders(dir, name) * known) == {}
  {
    HeldCandidates(f, dir, name, known);
    assert Reached(g, n, Exact(Query(f, name), known)) <= Reached(g, n, Holders(dir, name) * known);
  }

  /** Which of the holders the first loop of the source takes up: those that no shorter level of the name leads to. */
  lemma ExactHolders(f: Forest, dir: map<string, set<nat>>, name: string, known: set<nat>, n: nat)
    requires Represents(f, dir) && Holders(dir, name) != {}
    ensures n in Exact(Query(f, name), known) <==> n in Holders(dir, name) * known && !LeadsShorter(dir, name, n)
  {
    var fields := Fields(name);
    NameDepth(f, dir, name);
    OwnNodeAnswer(f, name);
    QueryLaw(f, name);
    CoverWithin(f, dir, name, |fields| - 1, n);
    ShorterWithin(dir, name, n);
  }

  /** The candidates for any name, told by the directory: if the deepest level of the name that leads to anything is a
      name p of the directory, first the known holders of p that no level in front leads to, and then the known
      holders of the last level that has any. */
  lemma CandidatesAccount(f: Forest, dir: map<string, set<nat>>, name: string, known: set<nat>, k: nat, p: string)
    requires Represents(f, dir) && Deepest(dir, name, k) && LevelName(dir, name, k, p)
    ensures forall n :: n in Exact(Query(f, name), known) <==> n in dir[p] * known && !LeadsAbove(dir, name, k, n)
    ensures forall j, q :: LastHeld(dir, name, k, j, q) ==> Fallback(Query(f, name), known) == dir[q] * known
    ensures (forall j, q :: !LastHeld(dir, name, k, j, q)) ==> Fallback(Query(f, name), known) == {}
  {
    QueryAccount(f, dir, name, k);
    QueryAtLevel(f, dir, name, k);
    LastAccount(f, dir, name, k);
  }

  /** Otherwise there are none. */
  lemma NoCandidates(f: Forest, dir: map<string, set<nat>>, name: string, known: set<nat>)
    requires Represents(f, dir) && forall k, p :: Deepest(dir, name, k) ==> !LevelName(dir, name, k, p)
    ensures Exact(Query(f, name), known) == {} && Fallback(Query(f, name), known) == {}
  {
    if k :| Deepest(dir, name, k) {
      QueryAccount(f, dir, name, k);
    } else {
      QueryNothing(f, dir, name);
    }
  }

  ghost predicate LeadsShorter(dir: map<string, set<nat>>, name: string, n: nat)
  {
    exists p :: p in dir && n in dir[p] && Fields(p) < Fields(name)
  }

  lemma ShorterWithin(dir: map<string, set<nat>>, name: string, n: nat)
    requires Fields(name) != []
    ensures LeadsShorter(dir, name, n) <==> LeadsWithin(dir, name, |Fields(name)| - 1, n)
  {
    var fields := Fields(name);
    forall o | o in dir
      ensures Fields(o) < fields <==> Fields(o) <= fields[..|fields| - 1]
    {
      var p := Fields(o);
      assert p < fields ==> p == fields[..|fields| - 1][..|p|];
      assert p <= fields[..|fields| - 1] ==> p == fields[..|p|];
    }
  }

  // ---------------------------------------------------------------- who has the file

  /** The nodes that have a file of that name. */
  ghost function Owners(sites: map<nat, Site>, name: string): set<nat>
  {
    set n | n in sites && name in sites[n].s.files
  }

  /** Where the nodes agree, the directory leads exactly to the nodes that have the file. */
  lemma HoldersOwn(sites: map<nat, Site>, g: Graph, dir: map<string, set<nat>>, name: string, m: nat)
    requires Agreed(sites, g, dir) && m in sites
    ensures Holders(dir, name) == Owners(sites, name)
  {
    forall n: nat
      ensures n in Holders(dir, name) <==> n in Owners(sites, name)
    {
      HolderOwns(sites, g, dir, name, m, n);
    }
  }

  lemma HolderOwns(sites: map<nat, Site>, g: Graph, dir: map<string, set<nat>>, name: string, m: nat, n: nat)
    requires Agreed(sites, g, dir) && m in sites
    ensures n in Holders(dir, name) <==> n in Owners(sites, name)
  {
    assert SiteOk(sites[m], m, sites.Keys, g, dir);
    if n in Holders(dir, name) {
      assert Maps(sites[m].s.dir, name, n);
      assert Lists(sites[m].s, n, name);
      assert SiteOk(sites[n], n, sites.Keys, g, dir);
      assert Maps(sites[n].s.dir, name, n);
      assert Lists(sites[n].s, n, name);
    }
    if n in Owners(sites, name) {
      assert SiteOk(sites[n], n, sites.Keys, g, dir);
      assert Lists(sites[n].s, n, name);
      assert Maps(sites[n].s.dir, name, n);
    }
  }

  lemma {:induction false} Closest(g: Graph, n: nat, goals: set<nat>, y: nat, k: nat) returns (d: nat)
    requires y in goals && Dist(g, n, y, k)
    ensures AwayIn(g, n, goals, d)
    decreases k
  {
    if z: nat, e: nat :| z in goals && Dist(g, n, z, e) && e < k {
      d := Closest(g, n, goals, z, e);
    } else {
      d := k;
      assert Nearest(g, n, goals, y, k);
    }
  }

  /** Goals that can be reached are some distance away. */
  lemma SomeAway(g: Graph, n: nat, goals: set<nat>) returns (d: nat)
    requires goals != {} && goals == Reached(g, n, goals)
    ensures AwayIn(g, n, goals, d)
  {
    var y :| y in goals;
    assert Reachable(g, n, y);
    var k: nat :| Hops(g, n, y, k);
    var e := DistExists(g, n, y, k);
    d := Closest(g, n, goals, y, e);
  }

  /** What there is to find from node n on. */
  lemma OwnersAway(sites: map<nat, Site>, g: Graph, dir: map<string, set<nat>>, name: string, n: nat) returns (d: nat)
    requires Agreed(sites, g, dir) && n in sites && Reached(g, n, Owners(sites, name)) != {}
    ensures Away(sites[n], name, d)
  {
    var site := sites[n];
    assert SiteOk(site, n, sites.Keys, g, dir);
    HoldersOwn(sites, g, dir, name, n);
    assert Owners(sites, name) * sites.Keys == Owners(sites, name);
    HeldGoals(g, n, site.forest, dir, name, sites.Keys);
    d := SomeAway(g, n, GoalsAt(site, name));
  }

  lemma GoalsOwn(sites: map<nat, Site>, g: Graph, dir: map<string, set<nat>>, name: string, n: nat)
    requires Agreed(sites, g, dir) && n in sites && Owners(sites, name) != {}
    ensures GoalsAt(sites[n], name) <= Owners(sites, name)
    ensures GoalsAt(sites[n], name) == {} <==> Reached(g, n, Owners(sites, name)) == {}
  {
    assert SiteOk(sites[n], n, sites.Keys, g, dir);
    HoldersOwn(sites, g, dir, name, n);
    assert Owners(sites, name) * sites.Keys == Owners(sites, name);
    HeldGoals(g, n, sites[n].forest, dir, name, sites.Keys);
  }

  /** The node has a file for a shorter level of the name as well. */
  ghost predicate HasShorter(site: Site, name: string)
  {
    exists p :: p in site.s.files && Fields(p) < Fields(name)
  }

  /** The nodes that have a file of that name and none for a shorter level of it. */
  ghost function PlainOwners(sites: map<nat, Site>, name: string): set<nat>
  {
    set n | n in Owners(sites, name) && !HasShorter(sites[n], name)
  }

  lemma ShorterOwn(sites: map<nat, Site>, g: Graph, dir: map<string, set<nat>>, name: string, m: nat, n: nat)
    requires Agreed(sites, g, dir) && m in sites && n in sites
    ensures LeadsShorter(dir, name, n) <==> HasShorter(sites[n], name)
  {
    forall p
      ensures p in dir && n in dir[p] <==> p in sites[n].s.files
    {
      HolderOwns(sites, g, dir, p, m, n);
    }
  }

  /** What a lookup of a name that some node has looks for: a reachable node with such a file and none for a shorter
      level, or else any reachable node with such a file. */
  lemma GoalsExactly(sites: map<nat, Site>, g: Graph, dir: map<string, set<nat>>, name: string, n: nat)
    requires Agreed(sites, g, dir) && n in sites && Owners(sites, name) != {}
    ensures GoalsAt(sites[n], name) == Reached(g, n,
        if Reached(g, n, PlainOwners(sites, name)) != {} then PlainOwners(sites, name) else Owners(sites, name))
  {
    var f := sites[n].forest;
    assert SiteOk(sites[n], n, sites.Keys, g, dir);
    HoldersOwn(sites, g, dir, name, n);
    HeldCandidates(f, dir, name, sites.Keys);
    assert Owners(sites, name) * sites.Keys == Owners(sites, name);
    forall m: nat
      ensures m in Exact(Query(f, name), sites.Keys) <==> m in PlainOwners(sites, name)
    {
      ExactHolders(f, dir, name, sites.Keys, m);
      if m in Owners(sites, name) {
        ShorterOwn(sites, g, dir, name, n, m);
      }
    }
    assert Exact(Query(f, name), sites.Keys) == PlainOwners(sites, name);
  }

  lemma OwnFile(sites: map<nat, Site>, g: Graph, dir: map<string, set<nat>>, name: string, n: nat)
    requires Agreed(sites, g, dir) && n in sites
    ensures n in Owners(sites, name) <==> name in sites[n].paths
  {
    assert SiteOk(sites[n], n, sites.Keys, g, dir);
  }

  // ---------------------------------------------------------------- end to end

  /** A name that some node has: every reply names a neighbour one hop nearer until exactly d hops are made, d being
      the distance of the nearest goal, and then the reply is the path of the node's own file. */
  lemma FindsObject(sites: map<nat, Site>, g: Graph, dir: map<string, set<nat>>, name: string, path: seq<nat>,
          replies: seq<Reply>, d: nat)
    requires Agreed(sites, g, dir) && Journey(sites, name, path, replies) && Relayable(name)
    requires Away(sites[path[0]], name, d) && Owners(sites, name) != {}
    ensures var k := |path| - 1; var last := path[k];
      && k <= d && (k < d ==> NamesNext(sites, name, last, replies[k], d - k))
      && (k == d ==>
        last in Owners(sites, name) && name in sites[last].paths && replies[k] == Here(sites[last].paths[name]))
  {
    StopsAtGoal(sites, g, dir, name, path, replies, d);
    GoalsOwn(sites, g, dir, name, path[|path| - 1]);
    OwnFile(sites, g, dir, name, path[|path| - 1]);
  }

  /** A node answers with a file only if it has one of that name. */
  lemma HereOwns(site: Site, name: string, reply: Reply)
    requires MayAnswer(site, name, reply) && reply.Here?
    ensures name in site.paths && reply == Here(site.paths[name])
  {
  }

  /** Where there are no goals, nothing is found and no node is named. */
  lemma NothingAt(site: Site, name: string, reply: Reply)
    requires MayAnswer(site, name, reply)
    ensures GoalsAt(site, name) == {} ==> reply.Absent? || reply.Segfault?
  {
    if !Query(site.forest, name).Crash? {
      var hop: nat :| GoodHop(site.s, site.forest, name, hop)
                      && reply == ReplyFor(site.s.nid, MapOf(site.s.nbs), site.paths, name, hop);
      GoodOnMap(site.s, site.forest, name, hop);
    }
  }

  lemma AskedFor(sites: map<nat, Site>, name: string, path: seq<nat>, replies: seq<Reply>, i: nat)
    requires Journey(sites, name, path, replies) && Relayable(name) && i < |path|
    ensures MayAnswer(sites[path[i]], name, replies[i])
  {
    assert Asked(sites, name, path, replies, i);
    RelayedSame(name, i);
  }

  /** The last reply is a file only if a node with the file can be reached from the first one. */
  lemma FoundReached(sites: map<nat, Site>, g: Graph, dir: map<string, set<nat>>, name: string, path: seq<nat>,
          replies: seq<Reply>)
    requires Agreed(sites, g, dir) && Journey(sites, name, path, replies) && Relayable(name)
    requires replies[|path| - 1].Here?
    ensures var last := path[|path| - 1];
      && last in Owners(sites, name) && name in sites[last].paths
      && replies[|path| - 1] == Here(sites[last].paths[name])
    ensures Reached(g, path[0], Owners(sites, name)) != {}
  {
    var last := path[|path| - 1];
    AskedFor(sites, name, path, replies, |path| - 1);
    HereOwns(sites[last], name, replies[|path| - 1]);
    OwnFile(sites, g, dir, name, last);
    GoalsOwn(sites, g, dir, name, path[0]);
    AskedFor(sites, name, path, replies, 0);
    NothingAt(sites[path[0]], name, replies[0]);
  }

  /** A lookup that is over, because its last reply names no further node, has found a file if and only if some node
      that has a file of that name can be reached from where it began. */
  lemma FoundExactly(sites: map<nat, Site>, g: Graph, dir: map<string, set<nat>>, name: string, path: seq<nat>,
          replies: seq<Reply>)
    requires Agreed(sites, g, dir) && Journey(sites, name, path, replies) && Relayable(name)
    requires !replies[|path| - 1].There?
    ensures replies[|path| - 1].Here? <==> Reached(g, path[0], Owners(sites, name)) != {}
    ensures replies[|path| - 1].Here? ==> var last := path[|path| - 1];
      last in Owners(sites, name) && name in sites[last].paths && replies[|path| - 1] == Here(sites[last].paths[name])
  {
    if replies[|path| - 1].Here? {
      FoundReached(sites, g, dir, name, path, replies);
    }
    if Reached(g, path[0], Owners(sites, name)) != {} {
      var d := OwnersAway(sites, g, dir, name, path[0]);
      assert Owners(sites, name) != {};
      FindsObject(sites, g, dir, name, path, replies, d);
    }
  }

  /** A node that has the file itself answers with it if and only if it has no file for a shorter level of the name, or
      every reachable node with such a file has; otherwise it hands the request on. */
  lemma OwnAnswered(sites: map<nat, Site>, g: Graph, dir: map<string, set<nat>>, name: string, n: nat, reply: Reply)
    requires Agreed(sites, g, dir) && n in Owners(sites, name) && MayAnswer(sites[n], name, reply)
    ensures reply.Here? || reply.There?
    ensures reply.Here? <==> !HasShorter(sites[n], name) || Reached(g, n, PlainOwners(sites, name)) == {}
  {
    GoalsExactly(sites, g, dir, name, n);
    SelfReached(g, n, Owners(sites, name));
    SelfReached(g, n, PlainOwners(sites, name));
    var d := OwnersAway(sites, g, dir, name, n);
    GoalNoCrash(sites[n], name, d);
    var site := sites[n];
    var hop: nat :| GoodHop(site.s, site.forest, name, hop)
                    && reply == ReplyFor(site.s.nid, MapOf(site.s.nbs), site.paths, name, hop);
    ReplyStep(sites, g, dir, name, n, reply, hop, d);
    OwnFile(sites, g, dir, name, n);
    assert SiteOk(sites[n], n, sites.Keys, g, dir);
    SelfNearest(g, n, GoalsAt(sites[n], name), d);
  }

  lemma SelfReached(g: Graph, n: nat, c: set<nat>)
    ensures n in Reached(g, n, c) <==> n in c
  {
    assert Hops(g, n, n, 0);
  }

  lemma SelfNearest(g: Graph, n: nat, goals: set<nat>, d: nat)
    requires AwayIn(g, n, goals, d)
    ensures d == 0 <==> n in goals
  {
    assert Hops(g, n, n, 0);
    assert Dist(g, n, n, 0);
  }

  /** A node with the file that hands the request on: node 1 has "a/" and "a/b", its neighbour 2 has "a/b". */
  lemma PassedOver(f: Forest)
    requires Represents(f, map["a/" := {1}, "a/b" := {1, 2}])
    ensures Goals({(1, 2), (2, 1)}, 1, Query(f, "a/b"), {1, 2}) == {2}
  {
    var g: Graph, dir: map<string, set<nat>> := {(1, 2), (2, 1)}, map["a/" := {1}, "a/b" := {1, 2}];
    TwoFields();
    ExactHolders(f, dir, "a/b", {1, 2}, 1);
    ExactHolders(f, dir, "a/b", {1, 2}, 2);
    assert "a/" in dir && 1 in dir["a/"];
    assert Exact(Query(f, "a/b"), {1, 2}) == {2};
    assert Hops(g, 2, 2, 0);
    HopsPrepend(g, 1, 2, 2, 0);
  }

  lemma TwoFields()
    ensures Fields("a/") == ["a/"] && Fields("a/b") == ["a/", "b"] && Fields("a/") < Fields("a/b")
  {
    assert "a/"[0..2] == "a/" && "a/b"[0..2] == "a/" && "a/b"[2..3] == "b";
  }
}
