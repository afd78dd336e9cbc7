/** Whole runs of the network: agreement and bounded flooding. */
module Flooding {
  import opened HashTables
  import opened Types
  import opened Protocol
  import opened Effects
  import opened Steps
  import opened Network

  // ---------------------------------------------------------------- runs

  /** Every node has just started. */
  ghost predicate Starts(net: Net)
  {
    && AddrOk(net) && net.wire == {}
    && (forall n {:trigger StartsAt(net, n)} :: n in net.nodes ==> StartsAt(net, n))
    && (forall k :: k in net.hop <==> k.0 in net.nodes && k == (k.0, k.0, 0))
    && (forall k :: k in net.hop ==> net.hop[k] == 0)
    && (forall k :: k in net.content <==> k.0 in net.nodes && k.1 == 0)
  }

  ghost predicate StartsAt(net: Net, n: nat)
    requires n in net.nodes
  {
    var s := net.nodes[n];
    && s == Boot(n, s.timers, s.nbs, s.files) && NbsOk(net, s.nbs) && AllUp(s) && IsNb(s.nbs, n)
    && (n, 0) in net.content && n in s.lsas && net.content[(n, 0)] == s.lsas[n].body
  }

  ghost predicate AllUp(s: Node)
  {
    forall i :: 0 <= i < |s.nbs| ==> s.nbs[i].val.valid
  }

  /** The states of a run, one more than its actions. */
  ghost predicate IsRun(r: seq<Net>, acts: seq<Action>)
  {
    && |r| == |acts| + 1 && Starts(r[0])
    && forall i {:trigger StepAt(r, acts, i)} :: 0 <= i < |acts| ==> StepAt(r, acts, i)
  }

  ghost predicate StepAt(r: seq<Net>, acts: seq<Action>, i: nat)
    requires i < |acts| < |r|
  {
    Possible(r[i], acts[i]) && r[i + 1] == Next(r[i], acts[i])
  }

  lemma BootHolds(nid: nat, timers: Timers, nbs: seq<Entry<nat, Neighbour>>, files: seq<string>, dst: Addr, pk: Packet)
    ensures var s := Boot(nid, timers, nbs, files);
      && PendShape(s.pend) && s.lsas.Keys == {nid} && s.lsas[nid].seqNum == 1 && s.lsas[nid].ttl == LSA_MAX_TTL
      && s.nid == nid && s.nbs == nbs && s.queue == s.made
      && Held(s, dst, pk) == Count(s.made, dst, pk)
      && Count(s.made, dst, pk) ==
        if pk == Ad(LSA_MAX_TTL, nid, 0, s.lsas[nid].body) then Targets(nbs, nid, nid, None, dst) else 0
  {
    var s := Boot(nid, timers, nbs, files);
    var own := Lsa(true, timers.lsa, LSA_MAX_TTL, 0, Body(LiveLinks(nbs, nid), files));
    FloodAdsCount(nbs, nid, nid, None, own, timers.retran, dst, pk);
    var ads := FloodAds(nbs, nid, nid, None, own, timers.retran);
    assert ads + [] == ads;
    NothingPending(s.pend, dst, pk);
  }

  lemma {:induction false} NothingPending(pend: seq<seq<Pending>>, dst: Addr, pk: Packet)
    requires forall b :: 0 <= b < |pend| ==> pend[b] == []
    ensures PendCount(pend, dst, pk) == 0
  {
    if pend != [] {
      NothingPending(pend[..|pend| - 1], dst, pk);
    }
  }

  lemma StartNode(net: Net, n: nat)
    requires AddrOk(net) && n in net.nodes && StartsAt(net, n)
    requires (n, n, 0) in net.hop && net.hop[(n, n, 0)] == 0
    ensures NodeOk(net, n) && net.nodes[n].lsas.Keys == {n} && Has(net, n, n, 0)
  {
    var s := net.nodes[n];
    BootHolds(n, s.timers, s.nbs, s.files, Addr("", 0), Ack(0, 0));
    forall dst, pk | Held(s, dst, pk) > 0
      ensures PacketOk(net, n, pk)
    {
      BootHolds(n, s.timers, s.nbs, s.files, dst, pk);
    }
  }

  lemma StartHistory(net: Net)
    requires Starts(net)
    requires forall n :: n in net.nodes ==> Has(net, n, n, 0)
    ensures HistoryOk(net)
  {
    forall n, o, q | (n, o, q) in net.hop
      ensures n in net.nodes && o == n && q == 0 && net.hop[(n, o, q)] == 0
      ensures (o, q) in net.content && net.hop[(n, o, q)] < |Holders(net, o, q)|
    {
      var k := (n, o, q);
      assert k in net.hop && (n, 0) in net.content;
      assert n in Holders(net, o, q);
    }
    forall o, q | (o, q) in net.content
      ensures (o, o, q) in net.hop
    {
      var k := (o, q);
      assert k in net.content && (o, o, 0) in net.hop;
    }
  }

  lemma StartInv(net: Net)
    requires Starts(net)
    ensures Inv(net)
  {
    forall n | n in net.nodes
      ensures NodeOk(net, n) && net.nodes[n].lsas.Keys == {n} && Has(net, n, n, 0)
    {
      assert StartsAt(net, n);
      assert (n, n, 0) in net.hop;
      StartNode(net, n);
    }
    StartHistory(net);
  }

  lemma RunStep(r: seq<Net>, acts: seq<Action>, i: nat)
    requires IsRun(r, acts) && i < |acts| && Inv(r[i])
    ensures Inv(r[i + 1]) && Grows(r[i], r[i + 1])
  {
    assert StepAt(r, acts, i);
    NextInv(r[i], acts[i]);
  }

  lemma GrowsBoth(a: Net, b: Net, c: Net)
    requires Grows(a, b) && Grows(b, c)
    ensures Grows(a, c)
  {
  }

  lemma {:induction false} RunInvAt(r: seq<Net>, acts: seq<Action>, i: nat)
    requires IsRun(r, acts) && i < |r|
    ensures Inv(r[i])
  {
    if i == 0 {
      StartInv(r[0]);
    } else {
      RunInvAt(r, acts, i - 1);
      RunStep(r, acts, i - 1);
    }
  }

  lemma {:induction false} RunGrows(r: seq<Net>, acts: seq<Action>, i: nat, j: nat)
    requires IsRun(r, acts) && i <= j < |r|
    ensures Grows(r[i], r[j])
    decreases j
  {
    if i < j {
      RunGrows(r, acts, i, j - 1);
      RunInvAt(r, acts, j - 1);
      RunStep(r, acts, j - 1);
      GrowsBoth(r[i], r[j - 1], r[j]);
    }
  }

  /** The invariant holds in every state of every run, and later states know at least what earlier ones do. */
  lemma RunInv(r: seq<Net>, acts: seq<Action>, i: nat, j: nat)
    requires IsRun(r, acts) && i <= j < |r|
    ensures Inv(r[i]) && Inv(r[j]) && Grows(r[i], r[j])
  {
    RunInvAt(r, acts, i);
    RunInvAt(r, acts, j);
    RunGrows(r, acts, i, j);
  }

  // ---------------------------------------------------------------- agreement

  /** An advertisement of (o, q) with this body and time to live is queued, pending or sent somewhere. */
  ghost predicate Announced(net: Net, ttl: int, o: nat, q: nat, body: Body)
  {
    || (exists d :: d in net.wire && d.packet == Ad(ttl, o, q, body))
    || (exists n, dst :: n in net.nodes && Held(net.nodes[n], dst, Ad(ttl, o, q, body)) > 0)
  }

  lemma AnnouncedOk(net: Net, ttl: int, o: nat, q: nat, body: Body)
    requires Inv(net) && Announced(net, ttl, o, q, body)
    ensures (o, q) in net.content && net.content[(o, q)] == body && 1 <= ttl <= LSA_MAX_TTL
  {
    if n, dst :| n in net.nodes && Held(net.nodes[n], dst, Ad(ttl, o, q, body)) > 0 {
      assert NodeOk(net, n);
      assert PacketOk(net, n, Ad(ttl, o, q, body));
    } else {
      var d :| d in net.wire && d.packet == Ad(ttl, o, q, body);
      var m :| m in net.nodes && m in net.addr && net.addr[m] == d.src && PacketOk(net, m, d.packet);
    }
  }

  /** Instance agreement: two advertisements with one origin and number, anywhere and at any two times of a
      run, carry the same links and objects. */
  lemma InstanceAgreement(r: seq<Net>, acts: seq<Action>, i: nat, j: nat, t1: int, t2: int, o: nat, q: nat, b1: Body,
          b2: Body)
    requires IsRun(r, acts) && i < |r| && j < |r|
    requires Announced(r[i], t1, o, q, b1) && Announced(r[j], t2, o, q, b2)
    ensures b1 == b2
  {
    if i <= j {
      RunInv(r, acts, i, j);
    } else {
      RunInv(r, acts, j, i);
    }
    AnnouncedOk(r[i], t1, o, q, b1);
    AnnouncedOk(r[j], t2, o, q, b2);
  }

  /** Stored numbers never decrease, and an own flood always uses a number never flooded before. */
  lemma NumbersNeverDecrease(r: seq<Net>, acts: seq<Action>, i: nat, j: nat, n: nat, o: nat)
    requires IsRun(r, acts) && i <= j < |r|
    requires n in r[i].nodes && o in r[i].nodes[n].lsas
    ensures n in r[j].nodes && o in r[j].nodes[n].lsas
    ensures r[i].nodes[n].lsas[o].seqNum <= r[j].nodes[n].lsas[o].seqNum
    ensures forall q :: (o, q) in r[i].content ==>
      o in r[i].nodes && o in r[i].nodes[o].lsas && q < r[i].nodes[o].lsas[o].seqNum
  {
    RunInv(r, acts, i, j);
    var q := r[i].nodes[n].lsas[o].seqNum;
    if n != o {
      assert Has(r[i], n, o, q);
    } else if q > 0 {
      assert Has(r[i], n, o, q - 1);
    } else {
      assert NodeOk(r[j], n);
    }
    forall q | (o, q) in r[i].content
      ensures Has(r[i], o, o, q)
    {
      assert (o, o, q) in r[i].hop;
    }
  }

  /** An advertisement on its k-th hop carries time to live 33 - k, and 1 <= k <= 32. */
  lemma HopLaw(r: seq<Net>, acts: seq<Action>, i: nat, n: nat, dst: Addr, ad: Packet)
    requires IsRun(r, acts) && i < |r| && n in r[i].nodes && ad.Ad? && Held(r[i].nodes[n], dst, ad) > 0
    ensures (n, ad.origin, ad.seqNum) in r[i].hop
    ensures var k := r[i].hop[(n, ad.origin, ad.seqNum)] + 1; ad.ttl + k == 33 && 1 <= k <= 32
  {
    RunInv(r, acts, i, i);
    assert NodeOk(r[i], n);
    assert PacketOk(r[i], n, ad);
  }

  // ---------------------------------------------------------------- bounded flooding

  ghost predicate NbAddr(s: Node, dst: Addr)
  {
    exists k :: 0 <= k < |s.nbs| && s.nbs[k].val.Address() == dst
  }

  /** No advertisement was ever created twice for one neighbour, and none is held twice. */
  ghost predicate MadeOk(net: Net, n: nat)
    requires n in net.nodes
  {
    var s := net.nodes[n];
    forall dst, pk :: Count(s.made, dst, pk) > 0 || (pk.Ad? && Held(s, dst, pk) > 0) ==>
      pk.Ad? && PacketOk(net, n, pk) && NbAddr(s, dst) && (pk.Ad? ==>
        Held(s, dst, pk) <= Count(s.made, dst, pk)) && Count(s.made, dst, pk) <= 1
  }

  lemma DistinctAddrs(net: Net, s: Node)
    requires AddrOk(net) && NbsOk(net, s.nbs)
    ensures forall i, j :: 0 <= i < j < |s.nbs| ==> s.nbs[i].val.Address() != s.nbs[j].val.Address()
  {
  }

  /** What one event adds to the creation record. */
  ghost predicate Created(s: Node, ev: Event, s': Node, f: Option<FloodRun>, added: seq<Pending>)
  {
    && s'.made == added + s.made
    && (forall dst, pk :: Count(added, dst, pk) > 0 ==>
          FloodedBy(f, pk) && pk.Ad? && NbAddr(s', dst) && Count(added, dst, pk) == 1)
    && (forall dst: Addr, pk: Packet :: pk.Ad? ==> Held(s', dst, pk) <= Held(s, dst, pk) + Count(added, dst, pk))
  }

  lemma StepCreates(net: Net, s: Node, ev: Event)
    requires Enabled(s, ev) && AddrOk(net) && NbsOk(net, s.nbs)
    ensures Created(s, ev, Step(s, ev), FloodOf(s, ev), NewAds(s, ev))
  {
    Frame(s, ev);
    DistinctAddrs(net, s);
    var s', f := Step(s, ev), FloodOf(s, ev);
    forall dst, pk | Count(NewAds(s, ev), dst, pk) > 0
      ensures FloodedBy(f, pk) && pk.Ad? && NbAddr(s', dst) && Count(NewAds(s, ev), dst, pk) == 1
    {
      FloodAdsCount(f.value.nbs, s.nid, f.value.origin, f.value.except, f.value.lsa, s.timers.retran, dst, pk);
      TargetsOnce(f.value.nbs, s.nid, f.value.origin, f.value.except, dst);
      var i :| 0 <= i < |f.value.nbs| && Target(f.value.nbs[i], s.nid, f.value.origin, f.value.except) &&
        f.value.nbs[i].val.Address() == dst;
      assert s'.nbs[i].val.Address() == dst;
    }
    forall dst: Addr, pk: Packet | pk.Ad?
      ensures Held(s', dst, pk) <= Held(s, dst, pk) + Count(NewAds(s, ev), dst, pk)
    {
      Conservation(s, ev, dst, pk);
    }
  }

  lemma MadeEntry(mv: Move, added: seq<Pending>, dst: Addr, pk: Packet)
    requires mv.Ok() && HistoryOk(mv.net) && AddrOk(mv.net) && WireOk(mv.net) && MadeOk(mv.net, mv.n)
    requires Created(mv.net.nodes[mv.n], mv.ev, mv.net'.nodes[mv.n], mv.f, added)
    requires Count(added, dst, pk) > 0
    ensures var s := mv.net.nodes[mv.n];
      PacketOk(mv.net', mv.n, pk) && Count(s.made, dst, pk) == 0 && Held(s, dst, pk) == 0
  {
    FirstTime(mv);
    assert (mv.n, pk.origin, pk.seqNum) !in mv.net.hop;
    assert !PacketOk(mv.net, mv.n, pk);
    FloodedOk(mv, pk);
  }

  lemma MoveMade(mv: Move, added: seq<Pending>)
    requires mv.Ok() && Inv(mv.net) && MadeOk(mv.net, mv.n)
    requires Created(mv.net.nodes[mv.n], mv.ev, mv.net'.nodes[mv.n], mv.f, added)
    ensures MadeOk(mv.net', mv.n)
  {
    var net, net', s, s' := mv.net, mv.net', mv.net.nodes[mv.n], mv.net'.nodes[mv.n];
    MoveInv(mv);
    forall dst, pk | Count(s'.made, dst, pk) > 0 || (pk.Ad? && Held(s', dst, pk) > 0)
      ensures pk.Ad? && PacketOk(net', mv.n, pk) && NbAddr(s', dst) && Held(s', dst, pk) <= Count(s'.made, dst, pk) <= 1
    {
      CountAppend(added, s.made, dst, pk);
      if Count(added, dst, pk) > 0 {
        MadeEntry(mv, added, dst, pk);
      } else {
        PacketGrows(net, net', mv.n, pk);
        var k :| 0 <= k < |s.nbs| && s.nbs[k].val.Address() == dst;
        assert s'.nbs[k].val.Address() == dst;
      }
    }
  }

  lemma MoveMadeOther(mv: Move, n: nat)
    requires mv.Ok() && Inv(mv.net) && n in mv.net.nodes && n != mv.n && MadeOk(mv.net, n)
    ensures MadeOk(mv.net', n)
  {
    MoveInv(mv);
    var s := mv.net.nodes[n];
    assert mv.net'.nodes[n] == s;
    forall dst, pk | Count(s.made, dst, pk) > 0 || (pk.Ad? && Held(s, dst, pk) > 0)
      ensures PacketOk(mv.net', n, pk)
    {
      PacketGrows(mv.net, mv.net', n, pk);
    }
  }

  lemma NextCreates(net: Net, a: Action)
    requires Inv(net) && Possible(net, a)
    ensures var mv := MoveOf(net, a);
      Created(net.nodes[a.node], a.ev, mv.net'.nodes[a.node], mv.f, NewAds(net.nodes[a.node], a.ev))
  {
    assert NodeOk(net, a.node);
    StepCreates(net, net.nodes[a.node], a.ev);
  }

  lemma NextMade(net: Net, a: Action, n: nat)
    requires Inv(net) && Possible(net, a) && n in net.nodes && MadeOk(net, n)
    ensures n in Next(net, a).nodes && MadeOk(Next(net, a), n)
  {
    NextIsMove(net, a);
    var mv := MoveOf(net, a);
    if n == a.node {
      NextCreates(net, a);
      MoveMade(mv, NewAds(net.nodes[n], a.ev));
    } else {
      MoveMadeOther(mv, n);
    }
  }

  lemma {:induction false} RunMade(r: seq<Net>, acts: seq<Action>, i: nat, n: nat)
    requires IsRun(r, acts) && i < |r| && n in r[i].nodes
    ensures MadeOk(r[i], n)
  {
    RunInv(r, acts, i, i);
    if i == 0 {
      var s := r[0].nodes[n];
      assert StartsAt(r[0], n);
      DistinctAddrs(r[0], s);
      forall dst, pk | Count(s.made, dst, pk) > 0 || (pk.Ad? && Held(s, dst, pk) > 0)
        ensures pk.Ad? && PacketOk(r[0], n, pk) && NbAddr(s, dst) && Held(s, dst, pk) <= Count(s.made, dst, pk) <= 1
      {
        BootHolds(n, s.timers, s.nbs, s.files, dst, pk);
        TargetsOnce(s.nbs, n, n, None, dst);
      }
    } else {
      RunInv(r, acts, i - 1, i);
      RunMade(r, acts, i - 1, n);
      assert StepAt(r, acts, i - 1);
      NextMade(r[i - 1], acts[i - 1], n);
    }
  }

  /** How many advertisements of the instance a list holds. */
  ghost function InstanceCount(made: seq<Pending>, o: nat, q: nat): nat
  {
    if made == [] then 0
    else
      var pk := made[|made| - 1].packet;
      InstanceCount(made[..|made| - 1], o, q) + if pk.Ad? && pk.origin == o && pk.seqNum == q then 1 else 0
  }

  ghost function Dsts(made: seq<Pending>, pk: Packet): set<Addr>
  {
    set i | 0 <= i < |made| && made[i].packet == pk :: made[i].dst
  }

  /** If one packet stands for the instance, and no destination repeats, the instance count is a set size. */
  lemma {:induction false} InstanceIsSet(made: seq<Pending>, o: nat, q: nat, pk: Packet)
    requires pk.Ad? && pk.origin == o && pk.seqNum == q
    requires forall i ::
      0 <= i < |made| && made[i].packet.Ad? && made[i].packet.origin == o && made[i].packet.seqNum == q ==>
        made[i].packet == pk
    requires forall dst :: Count(made, dst, pk) <= 1
    ensures InstanceCount(made, o, q) == |Dsts(made, pk)|
  {
    if made != [] {
      var rest, p := made[..|made| - 1], made[|made| - 1];
      forall dst
        ensures Count(rest, dst, pk) <= 1
      {
        assert Count(made, dst, pk) <= 1;
      }
      InstanceIsSet(rest, o, q, pk);
      if p.packet == pk {
        assert Count(made, p.dst, pk) <= 1;
        forall i | 0 <= i < |rest| && rest[i].packet == pk
          ensures rest[i].dst != p.dst
        {
          CountAt(rest, i);
        }
        assert made[|made| - 1].dst in Dsts(made, pk);
        assert forall d :: d in Dsts(rest, pk) ==> d in Dsts(made, pk) by {
          forall d | d in Dsts(rest, pk)
            ensures d in Dsts(made, pk)
          {
            var i :| 0 <= i < |rest| && rest[i].packet == pk && rest[i].dst == d;
            assert made[i] == rest[i];
          }
        }
        assert Dsts(made, pk) == Dsts(rest, pk) + {p.dst};
      } else {
        assert Dsts(made, pk) == Dsts(rest, pk);
      }
    }
  }

  lemma {:induction false} AddrCount(nbs: seq<Entry<nat, Neighbour>>, ds: set<Addr>)
    requires forall d :: d in ds ==> exists k :: 0 <= k < |nbs| && nbs[k].val.Address() == d
    ensures |ds| <= |nbs|
  {
    if nbs == [] {
      assert forall d :: d !in ds;
      assert ds == {};
    } else {
      var last := nbs[|nbs| - 1].val.Address();
      AddrCount(nbs[..|nbs| - 1], ds - {last});
    }
  }

  /** A node creates at most one advertisement of an instance for each of its neighbours. */
  lemma CreatedPerNode(r: seq<Net>, acts: seq<Action>, i: nat, n: nat, o: nat, q: nat)
    requires IsRun(r, acts) && i < |r| && n in r[i].nodes
    ensures InstanceCount(r[i].nodes[n].made, o, q) <= |r[i].nodes[n].nbs|
  {
    RunMade(r, acts, i, n);
    var s := r[i].nodes[n];
    if (n, o, q) in r[i].hop && (o, q) in r[i].content {
      var pk := Ad(LSA_MAX_TTL - r[i].hop[(n, o, q)], o, q, r[i].content[(o, q)]);
      forall k | 0 <= k < |s.made| && s.made[k].packet.Ad? &&
        s.made[k].packet.origin == o && s.made[k].packet.seqNum == q
        ensures s.made[k].packet == pk
      {
        CountAt(s.made, k);
      }
      forall dst
        ensures Count(s.made, dst, pk) <= 1
      {
      }
      InstanceIsSet(s.made, o, q, pk);
      forall d | d in Dsts(s.made, pk)
        ensures exists k :: 0 <= k < |s.nbs| && s.nbs[k].val.Address() == d
      {
        var k :| 0 <= k < |s.made| && s.made[k].packet == pk && s.made[k].dst == d;
        CountAt(s.made, k);
      }
      AddrCount(s.nbs, Dsts(s.made, pk));
    } else {
      NeverCreated(r[i], n, s.made, o, q);
    }
  }

  lemma {:induction false} NeverCreated(net: Net, n: nat, made: seq<Pending>, o: nat, q: nat)
    requires !((n, o, q) in net.hop && (o, q) in net.content)
    requires forall dst, pk :: Count(made, dst, pk) > 0 ==> pk.Ad? && PacketOk(net, n, pk)
    ensures InstanceCount(made, o, q) == 0
  {
    if made != [] {
      var rest, p := made[..|made| - 1], made[|made| - 1];
      CountAt(made, |made| - 1);
      forall dst, pk | Count(rest, dst, pk) > 0
        ensures pk.Ad? && PacketOk(net, n, pk)
      {
        assert Count(made, dst, pk) > 0;
      }
      NeverCreated(net, n, rest, o, q);
    }
  }

  ghost function TotalCreated(net: Net, below: nat, o: nat, q: nat): nat
  {
    if below == 0 then 0
    else
      var last := if below - 1 in net.nodes then InstanceCount(net.nodes[below - 1].made, o, q) else 0;
      TotalCreated(net, below - 1, o, q) + last
  }

  ghost function TotalNbs(net: Net, below: nat): nat
  {
    if below == 0 then 0
    else TotalNbs(net, below - 1) + if below - 1 in net.nodes then |net.nodes[below - 1].nbs| else 0
  }

  /** Bounded flood: whatever happens in a run, all advertisements of one instance ever created, over all nodes,
      are at most as many as the neighbour table entries. */
  lemma {:induction false} BoundedFlood(r: seq<Net>, acts: seq<Action>, i: nat, below: nat, o: nat, q: nat)
    requires IsRun(r, acts) && i < |r|
    ensures TotalCreated(r[i], below, o, q) <= TotalNbs(r[i], below)
  {
    if below > 0 {
      BoundedFlood(r, acts, i, below - 1, o, q);
      if below - 1 in r[i].nodes {
        CreatedPerNode(r, acts, i, below - 1, o, q);
      }
    }
  }

  /** An advertisement that is held is held once: in the send list or in the pending table, not in both. */
  lemma HeldOnce(r: seq<Net>, acts: seq<Action>, i: nat, n: nat, dst: Addr, ad: Packet)
    requires IsRun(r, acts) && i < |r| && n in r[i].nodes && ad.Ad?
    ensures Held(r[i].nodes[n], dst, ad) <= 1
  {
    RunMade(r, acts, i, n);
  }
}
