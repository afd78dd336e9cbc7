/** The expiry pass of src/sel_timeout.c:65-101, one LSA after the other, and when a topology stays the same. */
module Ageing {
  import opened HashTables
  import opened Types
  import opened Graphs
  import opened Dijkstra
  import opened RouteTables
  import opened Protocol
  import opened Directories
  import opened LocalState

  /** The state once the LSAs of the nodes in `seen` have been looked at. */
  ghost function AgedTo(s: Node, elapsed: int, seen: set<nat>): Node
  {
    var gone := Expired(s, elapsed) * seen;
    s.(lsas := map k | k in s.lsas :: if k in seen then Aged(s, elapsed)[k] else s.lsas[k],
       dir := WithoutObjs(s.dir, gone, s.lsas),
       nbs := SetValid(s.nbs, gone, false),
       pend := AllNotTo(s.pend, AddrsOf(s.nbs, gone)),
       advLeft := s.advLeft - elapsed)
  }

  ghost function AllNotTo(pend: seq<seq<Pending>>, addrs: set<Addr>): (r: seq<seq<Pending>>)
    ensures |r| == |pend|
  {
    seq(|pend|, b requires 0 <= b < |pend| => NotTo(pend[b], addrs))
  }

  lemma {:induction false} NotToNone(chain: seq<Pending>)
    ensures NotTo(chain, {}) == chain
  {
    if chain != [] {
      NotToNone(chain[..|chain| - 1]);
    }
  }

  lemma {:induction false} NotToAppend(a: seq<Pending>, b: seq<Pending>, addrs: set<Addr>)
    ensures NotTo(a + b, addrs) == NotTo(a, addrs) + NotTo(b, addrs)
  {
    if b == [] {
      assert a + b == a;
    } else {
      NotToAppend(a, b[..|b| - 1], addrs);
      assert (a + b)[..|a + b| - 1] == a + b[..|b| - 1];
    }
  }

  lemma {:induction false} NotToTwice(chain: seq<Pending>, a: set<Addr>, b: set<Addr>)
    ensures NotTo(NotTo(chain, a), b) == NotTo(chain, a + b)
  {
    if chain != [] {
      var p, q := chain[..|chain| - 1], chain[|chain| - 1];
      NotToTwice(p, a, b);
      var last: seq<Pending> := if q.dst in a then [] else [q];
      NotToAppend(NotTo(p, a), last, b);
      assert NotTo(last, b) == if q.dst in a + b then [] else [q];
    }
  }

  lemma AllNotToTwice(pend: seq<seq<Pending>>, a: set<Addr>, b: set<Addr>)
    ensures AllNotTo(AllNotTo(pend, a), b) == AllNotTo(pend, a + b)
    ensures AllNotTo(pend, {}) == pend
  {
    forall i | 0 <= i < |pend|
      ensures AllNotTo(AllNotTo(pend, a), b)[i] == AllNotTo(pend, a + b)[i] && AllNotTo(pend, {})[i] == pend[i]
    {
      NotToTwice(pend[i], a, b);
      NotToNone(pend[i]);
    }
  }

  lemma AgedToNone(s: Node, elapsed: int)
    ensures AgedTo(s, elapsed, {}) == s.(advLeft := s.advLeft - elapsed)
  {
    AllNotToTwice(s.pend, {}, {});
    var t := AgedTo(s, elapsed, {});
    assert Expired(s, elapsed) * {} == {};
    assert AddrsOf(s.nbs, {}) == {};
    assert SetValid(s.nbs, {}, false) == s.nbs;
    assert t.lsas == s.lsas;
    forall o | o in s.dir
      ensures t.dir[o] == s.dir[o]
    {
    }
    assert t.dir == s.dir;
  }

  lemma AgedToAll(s: Node, elapsed: int, seen: set<nat>)
    requires s.lsas.Keys <= seen
    ensures AgedTo(s, elapsed, seen) == AgeLsas(s, elapsed)
  {
    assert Expired(s, elapsed) * seen == Expired(s, elapsed);
    assert AgedTo(s, elapsed, seen).lsas == Aged(s, elapsed);
  }

  /** The neighbour with this id, if there is one, is down and nothing waits for it any more. */
  ghost function Downed(t: Node, k: nat): Node
  {
    t.(nbs := SetValid(t.nbs, {k}, false), pend := AllNotTo(t.pend, AddrsOf(t.nbs, {k})))
  }

  lemma AddrsOfSplit(nbs: seq<Entry<nat, Neighbour>>, a: set<nat>, b: set<nat>, valid: bool)
    ensures AddrsOf(nbs, a + b) == AddrsOf(nbs, a) + AddrsOf(SetValid(nbs, a, valid), b)
  {
    var nbs' := SetValid(nbs, a, valid);
    forall i | 0 <= i < |nbs|
      ensures nbs'[i].key == nbs[i].key && nbs'[i].val.Address() == nbs[i].val.Address()
    {
    }
    forall x
      ensures x in AddrsOf(nbs', b) <==> x in AddrsOf(nbs, b)
    {
      if x in AddrsOf(nbs, b) {
        var i :| 0 <= i < |nbs| && nbs[i].key in b && nbs[i].val.Address() == x;
        assert nbs'[i].key in b && nbs'[i].val.Address() == x;
      }
      if x in AddrsOf(nbs', b) {
        var i :| 0 <= i < |nbs'| && nbs'[i].key in b && nbs'[i].val.Address() == x;
        assert nbs[i].key in b && nbs[i].val.Address() == x;
      }
    }
  }

  /** An LSA that does not expire now. */
  lemma AgedKept(s: Node, elapsed: int, seen: set<nat>, k: nat)
    requires k in s.lsas && k !in seen && !Expires(s, k, elapsed)
    ensures var t := AgedTo(s, elapsed, seen);
      AgedTo(s, elapsed, seen + {k}) == t.(lsas := t.lsas[k := Aged(s, elapsed)[k]])
  {
    assert Expired(s, elapsed) * (seen + {k}) == Expired(s, elapsed) * seen;
    var t := AgedTo(s, elapsed, seen);
    assert AgedTo(s, elapsed, seen + {k}).lsas == t.lsas[k := Aged(s, elapsed)[k]];
  }

  lemma SetValidNb(nbs: seq<Entry<nat, Neighbour>>, ids: set<nat>, k: nat)
    ensures IsNb(SetValid(nbs, ids, false), k) <==> IsNb(nbs, k)
  {
    var nbs' := SetValid(nbs, ids, false);
    assert forall i :: 0 <= i < |nbs| ==> nbs'[i].key == nbs[i].key;
    if IsNb(nbs, k) {
      var i :| 0 <= i < |nbs| && nbs[i].key == k;
      assert nbs'[i].key == k;
    }
  }

  /** The LSA of k is invalid, and its objects are gone. */
  ghost function Expiring(t: Node, k: nat, lsa: Lsa, left: int): Node
  {
    t.(lsas := t.lsas[k := lsa.(timeLeft := left, valid := false)], dir := RmObjs(t.dir, lsa.body.objs, k))
  }

  /** An LSA that expires now: it is invalid, its objects go, and the neighbour that sent it is down. */
  lemma AgedGone(s: Node, elapsed: int, seen: set<nat>, k: nat)
    requires k !in seen && Expires(s, k, elapsed)
    ensures AgedTo(s, elapsed, seen + {k}) ==
      Downed(Expiring(AgedTo(s, elapsed, seen), k, s.lsas[k], s.lsas[k].timeLeft - elapsed), k)
    ensures IsNb(AgedTo(s, elapsed, seen).nbs, k) <==> IsNb(s.nbs, k)
  {
    SetValidNb(s.nbs, Expired(s, elapsed) * seen, k);
    var gone, t, t' := Expired(s, elapsed) * seen, AgedTo(s, elapsed, seen), AgedTo(s, elapsed, seen + {k});
    assert Expired(s, elapsed) * (seen + {k}) == gone + {k};
    assert t'.lsas == t.lsas[k := Aged(s, elapsed)[k]];
    DirGone(s.dir, gone, s.lsas, k);
    assert t'.nbs == SetValid(t.nbs, {k}, false);
    AddrsOfSplit(s.nbs, gone, {k}, false);
    AllNotToTwice(s.pend, AddrsOf(s.nbs, gone), AddrsOf(t.nbs, {k}));
  }

  lemma AgedNext(s: Node, t: Node, elapsed: int, seen: set<nat>, k: nat, lsa: Lsa)
    requires k !in seen && Expires(s, k, elapsed) && lsa == s.lsas[k] && t == AgedTo(s, elapsed, seen)
    ensures k in t.lsas && IsNb(t.nbs, k) == IsNb(s.nbs, k)
    ensures forall o :: o in lsa.body.objs && o in s.dir ==> o in t.dir
    ensures AgedTo(s, elapsed, seen + {k}) == Downed(Expiring(t, k, lsa, lsa.timeLeft - elapsed), k)
  {
    AgedGone(s, elapsed, seen, k);
  }

  lemma DirGone(dir: map<string, set<nat>>, gone: set<nat>, lsas: map<nat, Lsa>, k: nat)
    requires k in lsas
    ensures WithoutObjs(dir, gone + {k}, lsas) == RmObjs(WithoutObjs(dir, gone, lsas), lsas[k].body.objs, k)
  {
    var a, b := WithoutObjs(dir, gone + {k}, lsas), RmObjs(WithoutObjs(dir, gone, lsas), lsas[k].body.objs, k);
    forall o | o in dir
      ensures a[o] == b[o]
    {
      forall n
        ensures n in a[o] <==> n in b[o]
      {
      }
    }
  }

  ghost predicate SomeExpired(s: Node, elapsed: int, seen: set<nat>)
  {
    exists k :: k in seen && Expires(s, k, elapsed)
  }

  ghost predicate SomeNbExpired(s: Node, elapsed: int, seen: set<nat>)
  {
    exists k :: k in seen && Expires(s, k, elapsed) && IsNb(s.nbs, k)
  }

  lemma SomeMore(s: Node, elapsed: int, seen: set<nat>, k: nat)
    ensures SomeExpired(s, elapsed, seen + {k}) <==> SomeExpired(s, elapsed, seen) || Expires(s, k, elapsed)
    ensures SomeNbExpired(s, elapsed, seen + {k}) <==>
      SomeNbExpired(s, elapsed, seen) || (Expires(s, k, elapsed) && IsNb(s.nbs, k))
  {
    if SomeExpired(s, elapsed, seen) {
      var j :| j in seen && Expires(s, j, elapsed);
      assert j in seen + {k};
    }
    if SomeNbExpired(s, elapsed, seen) {
      var j :| j in seen && Expires(s, j, elapsed) && IsNb(s.nbs, j);
      assert j in seen + {k};
    }
    assert k in seen + {k};
  }

  /** The two flags once every LSA has been looked at. */
  lemma SomeOfAll(s: Node, elapsed: int, seen: set<nat>)
    requires s.lsas.Keys <= seen
    ensures SomeExpired(s, elapsed, seen) <==> Expired(s, elapsed) != {}
    ensures SomeNbExpired(s, elapsed, seen) <==> NbExpires(s, elapsed)
  {
    if k :| k in Expired(s, elapsed) {
      assert Expires(s, k, elapsed) && k in seen;
    }
    if SomeExpired(s, elapsed, seen) {
      var k :| k in seen && Expires(s, k, elapsed);
      assert k in Expired(s, elapsed);
    }
    if SomeNbExpired(s, elapsed, seen) {
      var k :| k in seen && Expires(s, k, elapsed) && IsNb(s.nbs, k);
      var i :| 0 <= i < |s.nbs| && s.nbs[i].key == k;
      assert s.nbs[i].key in Expired(s, elapsed);
    }
    if NbExpires(s, elapsed) {
      var i :| 0 <= i < |s.nbs| && s.nbs[i].key in Expired(s, elapsed);
      assert IsNb(s.nbs, s.nbs[i].key) && s.nbs[i].key in seen;
    }
  }

  /** No LSA expires: validity, links and neighbours stay. */
  lemma NoneExpired(s: Node, elapsed: int)
    requires Expired(s, elapsed) == {}
    ensures SameMap(s, AgeLsas(s, elapsed)) && !NbExpires(s, elapsed)
  {
    var s' := AgeLsas(s, elapsed);
    assert s'.nbs == s.nbs;
    forall k | k in s.lsas
      ensures s'.lsas[k].valid == s.lsas[k].valid
    {
      assert k !in Expired(s, elapsed);
    }
  }

  // ---------------------------------------------------------------- unchanged topologies

  /** The topology looks at who is known, and at validity and links of the other nodes' LSAs. */
  lemma SameTopology(self: nat, nbrs: set<nat>, a: map<nat, Lsa>, b: map<nat, Lsa>)
    requires a.Keys == b.Keys
    requires forall k :: k in a && k != self ==> a[k].valid == b[k].valid && a[k].body.links == b[k].body.links
    ensures Topology(self, nbrs, a) == Topology(self, nbrs, b)
  {
    forall x: nat, y: nat
      ensures Link(self, nbrs, a, x, y) <==> Link(self, nbrs, b, x, y)
    {
    }
  }

  /** The table is the shortest path table of the state's neighbours and LSAs. */
  ghost predicate RoutesFor(table: seq<RouteEntry>, s: Node)
  {
    && NO_HOP !in s.lsas && |s.lsas.Keys| <= GRAPHSIZE
    && RoutesOk(table, s.nid, s.lsas.Keys, Topology(s.nid, ValidIds(s.nbs), s.lsas))
  }

  lemma RoutesSame(table: seq<RouteEntry>, s: Node, s': Node)
    requires RoutesFor(table, s) && s'.nid == s.nid
    requires ValidIds(s'.nbs) == ValidIds(s.nbs) && s'.lsas.Keys == s.lsas.Keys
    requires forall k :: k in s.lsas && k != s.nid ==>
      s.lsas[k].valid == s'.lsas[k].valid && s.lsas[k].body.links == s'.lsas[k].body.links
    ensures RoutesFor(table, s')
  {
    SameTopology(s.nid, ValidIds(s.nbs), s.lsas, s'.lsas);
  }

  /** What the topology looks at is the same in both states. */
  ghost predicate SameMap(s: Node, s': Node)
  {
    && s'.nid == s.nid && s'.nbs == s.nbs && s'.lsas.Keys == s.lsas.Keys
    && forall k :: k in s.lsas && k != s.nid ==>
      s.lsas[k].valid == s'.lsas[k].valid && s.lsas[k].body == s'.lsas[k].body
  }

  lemma SeqSameMap(s: Node, origin: nat, seqNum: nat, from: Addr)
    requires s.nid in s.lsas && |s.pend| == PEND_ACK_BUCKET_SIZE
    ensures SameMap(s, RecvSeq(s, origin, seqNum, from))
  {
  }

  lemma FileSameMap(s: Node, filesAfter: seq<string>)
    requires s.nid in s.lsas
    ensures SameMap(s, NewFile(s, filesAfter))
  {
  }

  lemma RoutesFlood(table: seq<RouteEntry>, s: Node, origin: nat, except: Option<Addr>)
    requires RoutesFor(table, s) && origin in s.lsas
    ensures RoutesFor(table, Flood(s, origin, except))
  {
    RoutesSame(table, s, Flood(s, origin, except));
  }

  lemma RoutesAdvertise(table: seq<RouteEntry>, s: Node)
    requires RoutesFor(table, s) && s.nid in s.lsas
    ensures RoutesFor(table, Advertise(s))
  {
    RoutesSame(table, s, Advertise(s));
  }

  /** Only accepted advertisements and expiries can change the topology. */
  lemma RoutesKept(table: seq<RouteEntry>, s: Node, ev: Event)
    requires Enabled(s, ev) && RoutesFor(table, s)
    requires ev.SendAll? || ev.AddFile? || (ev.Deliver? && !ev.packet.Ad?)
    ensures RoutesFor(table, Step(s, ev))
  {
    var s' := Step(s, ev);
    assert SameMap(s, s') by {
      match ev
      case SendAll =>
      case AddFile(name, filesAfter) => if name !in s.files { FileSameMap(s, filesAfter); }
      case Deliver(Seq(origin, seqNum), from) => SeqSameMap(s, origin, seqNum, from);
      case Deliver(_, from) =>
    }
    RoutesSame(table, s, s');
  }

  /** The expiry pass keeps the table usable, and right if nothing expires. */
  lemma AgedRoutes(table: seq<RouteEntry>, s: Node, elapsed: int)
    requires RoutesFor(table, s)
    ensures var s' := AgeLsas(s, elapsed);
      && |s'.lsas.Keys| <= GRAPHSIZE && NO_HOP !in s'.lsas
      && (Expired(s, elapsed) == {} ==> !NbExpires(s, elapsed) && RoutesFor(table, s'))
  {
    var s' := AgeLsas(s, elapsed);
    assert s'.lsas.Keys == s.lsas.Keys;
    if Expired(s, elapsed) == {} {
      NoneExpired(s, elapsed);
      RoutesSame(table, s, s');
    }
  }

  /** Such an event keeps everything that holds between events. */
  lemma EventKept(table: seq<RouteEntry>, s: Node, ev: Event)
    requires Enabled(s, ev) && RoutesFor(table, s) && LocalOk(s)
    requires ev.SendAll? || ev.AddFile? || (ev.Deliver? && !ev.packet.Ad?)
    ensures RoutesFor(table, Step(s, ev)) && LocalOk(Step(s, ev))
  {
    RoutesKept(table, s, ev);
    StepLocal(s, ev);
  }
}
