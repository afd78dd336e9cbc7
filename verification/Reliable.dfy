/** Reliable flooding: what a node holds on to, and that a quiet network has passed everything on. */
module Reliable {
  import opened HashTables
  import opened Types
  import opened Graphs
  import opened Protocol
  import opened Effects
  import opened Steps
  import opened Network
  import opened Flooding

  // ---------------------------------------------------------------- one node

  /** A reply that can take a pending entry with this packet away. */
  ghost predicate Answers(ev: Event, dst: Addr, pk: Packet)
  {
    && ev.Deliver? && !ev.packet.Ad? && ev.from == dst
    && pk.seqNum == (if ev.packet.Ack? then ev.packet.seqNum else 0)
    && pk.origin % PEND_ACK_BUCKET_SIZE == ev.packet.origin % PEND_ACK_BUCKET_SIZE
  }

  lemma RemovedAnswers(pend: seq<seq<Pending>>, origin: nat, seqNum: nat, from: Addr)
    requires PendShape(pend) && Removed(pend, origin, seqNum, from).Some?
    ensures var p := Removed(pend, origin, seqNum, from).value;
      && p.dst == from && p.packet.seqNum == seqNum
      && p.packet.origin % PEND_ACK_BUCKET_SIZE == origin % PEND_ACK_BUCKET_SIZE
  {
  }

  /** The neighbour at this address goes down. */
  ghost predicate Downs(s: Node, ev: Event, dst: Addr)
  {
    ev.Tick? && dst in AddrsOf(s.nbs, Expired(s, ev.elapsed))
  }

  /** A held advertisement stays held unless it is answered or the neighbour it is for goes down. */
  lemma Persists(s: Node, ev: Event, dst: Addr, pk: Packet)
    requires Enabled(s, ev) && PendShape(s.pend) && pk.Ad? && Held(s, dst, pk) > 0
    ensures Held(Step(s, ev), dst, pk) > 0 || Answers(ev, dst, pk) || Downs(s, ev, dst)
  {
    Conservation(s, ev, dst, pk);
    if Lost(s, ev, dst, pk) > 0 {
      match ev
      case Deliver(Ack(origin, seqNum), from) => RemovedAnswers(s.pend, origin, seqNum, from);
      case Deliver(Seq(origin, seqNum), from) => RemovedAnswers(s.pend, origin, 0, from);
      case _ =>
    }
  }

  lemma ExpiryDowns(s: Node, ev: Event, dst: Addr)
    requires Enabled(s, ev) && Downs(s, ev, dst)
    ensures !AllUp(Step(s, ev))
  {
    var i :| 0 <= i < |s.nbs| && s.nbs[i].key in Expired(s, ev.elapsed) && s.nbs[i].val.Address() == dst;
    assert AgeLsas(s, ev.elapsed).nbs[i].val.valid == false;
    assert Step(s, ev).nbs == AgeLsas(s, ev.elapsed).nbs;
  }

  /** Every target of the flood is held the advertisement for. */
  lemma FloodHolds(s: Node, ev: Event, i: nat)
    requires Enabled(s, ev) && FloodOf(s, ev).Some? && i < |FloodOf(s, ev).value.nbs|
    requires var f := FloodOf(s, ev).value; Target(f.nbs[i], s.nid, f.origin, f.except)
    ensures var f := FloodOf(s, ev).value; Held(Step(s, ev), f.nbs[i].val.Address(), f.Packet()) > 0
  {
    var f := FloodOf(s, ev).value;
    var dst := f.nbs[i].val.Address();
    FloodAdsCount(f.nbs, s.nid, f.origin, f.except, f.lsa, s.timers.retran, dst, f.Packet());
    TargetCounted(f.nbs, s.nid, f.origin, f.except, i);
    Conservation(s, ev, dst, f.Packet());
    LostAtMostHeld(s, ev, dst, f.Packet());
  }

  /** A neighbour that a flood is meant for, if it is up. */
  ghost predicate Wants(s: Node, f: FloodRun, nb: Entry<nat, Neighbour>)
  {
    nb.key != s.nid && nb.key != f.origin && f.except != Some(nb.val.Address())
  }

  /** A flood reaches every neighbour that wants it, if all are up afterwards. */
  lemma FloodCovers(s: Node, ev: Event, i: nat)
    requires Enabled(s, ev) && FloodOf(s, ev).Some? && AllUp(Step(s, ev)) && i < |s.nbs|
    ensures var f := FloodOf(s, ev).value;
      Wants(s, f, s.nbs[i]) ==> Held(Step(s, ev), s.nbs[i].val.Address(), f.Packet()) > 0
  {
    var f := FloodOf(s, ev).value;
    FloodNbs(s, ev);
    Frame(s, ev);
    if Wants(s, f, s.nbs[i]) {
      FloodHolds(s, ev, i);
    }
  }

  lemma FloodNbs(s: Node, ev: Event)
    requires Enabled(s, ev) && FloodOf(s, ev).Some?
    ensures FloodOf(s, ev).value.nbs == Step(s, ev).nbs
  {
  }

  lemma {:induction false} TargetCounted(nbs: seq<Entry<nat, Neighbour>>, self: nat, origin: nat,
          except: Option<Addr>, i: nat)
    requires i < |nbs| && Target(nbs[i], self, origin, except)
    ensures Targets(nbs, self, origin, except, nbs[i].val.Address()) > 0
  {
    if i < |nbs| - 1 {
      TargetCounted(nbs[..|nbs| - 1], self, origin, except, i);
    }
  }

  lemma LostAtMostHeld(s: Node, ev: Event, dst: Addr, pk: Packet)
    requires Enabled(s, ev)
    ensures Lost(s, ev, dst, pk) <= Held(s, dst, pk)
  {
    match ev
    case Deliver(Ack(origin, seqNum), from) => HitHeld(s.pend, origin, seqNum, from, dst, pk);
    case Deliver(Seq(origin, seqNum), from) => HitHeld(s.pend, origin, 0, from, dst, pk);
    case _ =>
  }

  lemma HitHeld(pend: seq<seq<Pending>>, origin: nat, seqNum: nat, from: Addr, dst: Addr, pk: Packet)
    requires |pend| == PEND_ACK_BUCKET_SIZE
    ensures Hit(Removed(pend, origin, seqNum, from), dst, pk) <= PendCount(pend, dst, pk)
  {
    var b := origin % PEND_ACK_BUCKET_SIZE;
    var i := FirstExact(pend[b], FirstFrom(pend[b], 0, origin), seqNum, from);
    if i < |pend[b]| {
      CountAt(pend[b], i);
      PendCountAt(pend, b, dst, pk);
    }
  }

  // ---------------------------------------------------------------- the network

  /** An origin and another one never share a bucket of the pending table. */
  ghost predicate DistinctBuckets(net: Net)
  {
    forall m, n :: m in net.nodes && n in net.nodes && m % PEND_ACK_BUCKET_SIZE == n % PEND_ACK_BUCKET_SIZE ==> m == n
  }

  /** The one advertisement of (o, q) that node n may send. */
  ghost function AdOf(net: Net, n: nat, o: nat, q: nat): Packet
    requires (n, o, q) in net.hop && (o, q) in net.content
  {
    Ad(LSA_MAX_TTL - net.hop[(n, o, q)], o, q, net.content[(o, q)])
  }

  /** Neighbour m of n knows (o, q), or n still holds the advertisement for it. */
  ghost predicate Served(net: Net, n: nat, m: nat, o: nat, q: nat)
  {
    || Has(net, m, o, q)
    || (&& n in net.nodes && (n, o, q) in net.hop && (o, q) in net.content && m in net.addr
        && Held(net.nodes[n], net.addr[m], AdOf(net, n, o, q)) > 0)
  }

  /** Whatever n originated, or accepted with a time to live above 1, its neighbours are served with. */
  ghost predicate Serves(net: Net, n: nat)
    requires n in net.nodes
  {
    forall o: nat, q: nat, i: nat :: Owes(net, n, i, o, q) ==> Served(net, n, net.nodes[n].nbs[i].key, o, q)
  }

  /** The i-th neighbour of n has a claim to the instance (o, q). */
  ghost predicate Owes(net: Net, n: nat, i: nat, o: nat, q: nat)
  {
    && n in net.nodes && (n, o, q) in net.hop && net.hop[(n, o, q)] < LSA_MAX_TTL
    && i < |net.nodes[n].nbs| && net.nodes[n].nbs[i].key != n && net.nodes[n].nbs[i].key != o
  }

  /** Every stored foreign number was accepted, and the number before the next own one was flooded. */
  ghost predicate Taken(net: Net, n: nat)
    requires n in net.nodes
  {
    && (forall o :: o in net.nodes[n].lsas && o != n ==> (n, o, net.nodes[n].lsas[o].seqNum) in net.hop)
    && n in net.nodes[n].lsas && net.nodes[n].lsas[n].seqNum > 0 && (n, n, net.nodes[n].lsas[n].seqNum - 1) in net.hop
  }

  ghost predicate Reliable(net: Net)
  {
    && Inv(net)
    && forall n {:trigger NodeOk(net, n)} :: n in net.nodes ==>
      NodeOk(net, n) && Serves(net, n) && Taken(net, n) && AllUp(net.nodes[n])
  }

  /** A sequence report that makes a node store a foreign number it never accepted. */
  ghost predicate Overtakes(s: Node, ev: Event)
  {
    && ev.Deliver? && ev.packet.Seq? && ev.packet.origin != s.nid
    && ev.packet.origin in s.lsas && s.lsas[ev.packet.origin].seqNum < ev.packet.seqNum
  }

  /** The step facts that reliability needs on top of Summary. */
  ghost predicate Careful(s: Node, ev: Event, s': Node, accepts: bool, f: Option<FloodRun>)
  {
    && AllUp(s') && !Overtakes(s, ev)
    && (accepts ==> ev.Deliver? && ev.packet.Ad? && (f.Some? <==> ev.packet.ttl - 1 > 0))
    && (f.Some? ==> f.value.except == if accepts then Some(ev.from) else None)
    && (forall dst: Addr, pk: Packet :: pk.Ad? && Held(s, dst, pk) > 0 ==>
      Held(s', dst, pk) > 0 || Answers(ev, dst, pk))
    && (f.Some? ==> forall i :: 0 <= i < |s.nbs| && Wants(s, f.value, s.nbs[i]) ==>
      Held(s', s.nbs[i].val.Address(), f.value.Packet()) > 0)
  }

  lemma StepCareful(s: Node, ev: Event)
    requires Enabled(s, ev) && PendShape(s.pend) && s.lsas[s.nid].ttl == LSA_MAX_TTL
    requires AllUp(Step(s, ev)) && !Overtakes(s, ev)
    ensures Careful(s, ev, Step(s, ev), Accepts(s, ev), FloodOf(s, ev))
  {
    var s', f := Step(s, ev), FloodOf(s, ev);
    OwnNumber(s, ev);
    if Accepts(s, ev) {
      AcceptEffect(s, ev);
    }
    if f.Some? && !FloodsOwn(s, ev) {
      ForeignFlood(s, ev);
    }
    forall dst: Addr, pk: Packet | pk.Ad? && Held(s, dst, pk) > 0
      ensures Held(s', dst, pk) > 0 || Answers(ev, dst, pk)
    {
      Persists(s, ev, dst, pk);
      if Downs(s, ev, dst) { ExpiryDowns(s, ev, dst); }
    }
    if f.Some? {
      forall i | 0 <= i < |s.nbs| && Wants(s, f.value, s.nbs[i])
        ensures Held(s', s.nbs[i].val.Address(), f.value.Packet()) > 0
      {
        FloodCovers(s, ev, i);
      }
    }
  }

  /** Who answers a pending advertisement knows the instance, if origins do not share buckets. */
  lemma AnswererHas(mv: Move, m: nat, pk: Packet)
    requires mv.Ok() && Inv(mv.net) && DistinctBuckets(mv.net)
    requires m in mv.net.addr && Answers(mv.ev, mv.net.addr[m], pk) && pk.origin in mv.net.nodes
    ensures Has(mv.net, m, pk.origin, pk.seqNum)
  {
    var sender := Arrival(mv.net, mv.n, mv.ev);
    assert sender == m;
    OriginHas(mv.net, m, mv.ev.packet);
  }

  lemma StillServed(mv: Move, m: nat, o: nat, q: nat)
    requires mv.Ok() && Inv(mv.net) && DistinctBuckets(mv.net)
    requires Careful(mv.net.nodes[mv.n], mv.ev, mv.net'.nodes[mv.n], mv.accepts, mv.f)
    requires (mv.n, o, q) in mv.net.hop && m in mv.net.addr && Served(mv.net, mv.n, m, o, q)
    ensures Served(mv.net', mv.n, m, o, q)
  {
    MoveGrows(mv);
    if Has(mv.net, m, o, q) {
      HasGrows(mv, m, o, q);
    } else if Answers(mv.ev, mv.net.addr[m], AdOf(mv.net, mv.n, o, q)) {
      assert (o, o, q) in mv.net.hop;
      AnswererHas(mv, m, AdOf(mv.net, mv.n, o, q));
    }
  }

  /** What was just originated or accepted is held for every neighbour that may not know it. */
  lemma NewlyServed(mv: Move, i: nat, o: nat, q: nat)
    requires mv.Ok() && Inv(mv.net) && NodeOk(mv.net, mv.n)
    requires Careful(mv.net.nodes[mv.n], mv.ev, mv.net'.nodes[mv.n], mv.accepts, mv.f)
    requires (mv.n, o, q) !in mv.net.hop && Owes(mv.net', mv.n, i, o, q)
    ensures i < |mv.net.nodes[mv.n].nbs| && Served(mv.net', mv.n, mv.net.nodes[mv.n].nbs[i].key, o, q)
  {
    var s, m := mv.net.nodes[mv.n], mv.net.nodes[mv.n].nbs[i].key;
    MoveHistory(mv);
    if mv.accepts {
      var sender := Arrival(mv.net, mv.n, mv.ev);
      if mv.ev.from == mv.net.addr[m] {
        assert sender == m;
        assert Has(mv.net, m, o, q);
        HasGrows(mv, m, o, q);
      } else {
        assert Wants(s, mv.f.value, s.nbs[i]);
        assert mv.f.value.Packet() == AdOf(mv.net', mv.n, o, q);
      }
    } else {
      assert Wants(s, mv.f.value, s.nbs[i]);
      assert mv.f.value.Packet() == AdOf(mv.net', mv.n, o, q);
    }
  }

  lemma MoveServes(mv: Move)
    requires mv.Ok() && Inv(mv.net) && DistinctBuckets(mv.net) && NodeOk(mv.net, mv.n) && Serves(mv.net, mv.n)
    requires Careful(mv.net.nodes[mv.n], mv.ev, mv.net'.nodes[mv.n], mv.accepts, mv.f)
    ensures Inv(mv.net') && NodeOk(mv.net', mv.n) && Serves(mv.net', mv.n)
  {
    MoveInv(mv);
    MoveNode(mv, mv.n);
    var net, net', n := mv.net, mv.net', mv.n;
    forall o: nat, q: nat, i: nat | Owes(net', n, i, o, q)
      ensures Served(net', n, net'.nodes[n].nbs[i].key, o, q)
    {
      assert net'.nodes[n].nbs[i].key == net.nodes[n].nbs[i].key;
      if (n, o, q) in net.hop {
        assert Owes(net, n, i, o, q);
        StillServed(mv, net.nodes[n].nbs[i].key, o, q);
      } else {
        NewlyServed(mv, i, o, q);
      }
    }
  }

  lemma OtherServes(mv: Move, n: nat)
    requires mv.Ok() && Inv(mv.net) && n in mv.net.nodes && n != mv.n && NodeOk(mv.net, n) && Serves(mv.net, n)
    ensures Inv(mv.net') && NodeOk(mv.net', n) && Serves(mv.net', n)
  {
    MoveInv(mv);
    MoveNode(mv, n);
    var net, net' := mv.net, mv.net';
    assert net'.nodes[n] == net.nodes[n];
    forall o: nat, q: nat, i: nat | Owes(net', n, i, o, q)
      ensures Served(net', n, net'.nodes[n].nbs[i].key, o, q)
    {
      var m := net.nodes[n].nbs[i].key;
      assert Owes(net, n, i, o, q);
      assert Served(net, n, m, o, q);
      if Has(net, m, o, q) {
        HasGrows(mv, m, o, q);
      }
    }
  }

  lemma MoveForeignTaken(mv: Move, n: nat, o: nat)
    requires mv.Ok() && Grows(mv.net, mv.net') && !Overtakes(mv.net.nodes[mv.n], mv.ev)
    requires n in mv.net.nodes && o in mv.net'.nodes[n].lsas && o != n
    requires o in mv.net.nodes[n].lsas ==> (n, o, mv.net.nodes[n].lsas[o].seqNum) in mv.net.hop
    ensures (n, o, mv.net'.nodes[n].lsas[o].seqNum) in mv.net'.hop
  {
  }

  lemma MoveOwnTaken(mv: Move, n: nat)
    requires mv.Ok() && Grows(mv.net, mv.net') && n in mv.net.nodes && n in mv.net.nodes[n].lsas
    requires mv.net.nodes[n].lsas[n].seqNum > 0 && (n, n, mv.net.nodes[n].lsas[n].seqNum - 1) in mv.net.hop
    ensures n in mv.net'.nodes[n].lsas && mv.net'.nodes[n].lsas[n].seqNum > 0
    ensures (n, n, mv.net'.nodes[n].lsas[n].seqNum - 1) in mv.net'.hop
  {
  }

  lemma MoveTaken(mv: Move, n: nat)
    requires mv.Ok() && Grows(mv.net, mv.net') && n in mv.net.nodes && Taken(mv.net, n)
    requires !Overtakes(mv.net.nodes[mv.n], mv.ev)
    ensures n in mv.net'.nodes && Taken(mv.net', n)
  {
    MoveOwnTaken(mv, n);
    forall o | o in mv.net'.nodes[n].lsas && o != n
      ensures (n, o, mv.net'.nodes[n].lsas[o].seqNum) in mv.net'.hop
    {
      MoveForeignTaken(mv, n, o);
    }
  }

  lemma MoveOnServes(mv: Move, n: nat)
    requires mv.Ok() && Inv(mv.net) && DistinctBuckets(mv.net) && n in mv.net.nodes && Grows(mv.net, mv.net')
    requires NodeOk(mv.net, n) && Serves(mv.net, n) && Taken(mv.net, n) && AllUp(mv.net.nodes[n])
    requires Careful(mv.net.nodes[mv.n], mv.ev, mv.net'.nodes[mv.n], mv.accepts, mv.f)
    ensures n in mv.net'.nodes && NodeOk(mv.net', n) && Serves(mv.net', n)
    ensures Taken(mv.net', n) && AllUp(mv.net'.nodes[n])
  {
    MoveTaken(mv, n);
    if n == mv.n {
      MoveServes(mv);
    } else {
      OtherServes(mv, n);
    }
  }

  /** One careful event keeps every obligation. */
  lemma NextReliable(net: Net, a: Action)
    requires Reliable(net) && DistinctBuckets(net) && Possible(net, a)
    requires AllUp(Step(net.nodes[a.node], a.ev)) && !Overtakes(net.nodes[a.node], a.ev)
    ensures Reliable(Next(net, a))
  {
    var mv := MoveOf(net, a);
    NextIsMove(net, a);
    MoveInv(mv);
    assert NodeOk(net, a.node);
    StepCareful(net.nodes[a.node], a.ev);
    forall n | n in mv.net'.nodes
      ensures NodeOk(mv.net', n) && Serves(mv.net', n) && Taken(mv.net', n) && AllUp(mv.net'.nodes[n])
    {
      assert NodeOk(net, n);
      MoveOnServes(mv, n);
    }
  }

  lemma StartServes(net: Net, n: nat)
    requires AddrOk(net) && n in net.nodes && StartsAt(net, n)
    requires (n, n, 0) in net.hop && net.hop[(n, n, 0)] == 0
    requires forall o, q :: (n, o, q) in net.hop ==> o == n && q == 0
    ensures Serves(net, n) && Taken(net, n) && AllUp(net.nodes[n])
  {
    var s := net.nodes[n];
    BootHolds(n, s.timers, s.nbs, s.files, Addr("", 0), Ack(0, 0));
    forall o: nat, q: nat, i: nat | Owes(net, n, i, o, q)
      ensures Served(net, n, s.nbs[i].key, o, q)
    {
      BootHolds(n, s.timers, s.nbs, s.files, s.nbs[i].val.Address(), AdOf(net, n, o, q));
      assert Target(s.nbs[i], n, n, None);
      TargetCounted(s.nbs, n, n, None, i);
    }
  }

  lemma StartReliable(net: Net)
    requires Starts(net)
    ensures Reliable(net)
  {
    StartInv(net);
    forall n | n in net.nodes
      ensures NodeOk(net, n) && Serves(net, n) && Taken(net, n) && AllUp(net.nodes[n])
    {
      assert NodeOk(net, n) && StartsAt(net, n);
      assert (n, n, 0) in net.hop;
      forall o, q | (n, o, q) in net.hop
        ensures o == n && q == 0
      {
        var k := (n, o, q);
        assert k in net.hop;
      }
      StartServes(net, n);
    }
  }

  // ---------------------------------------------------------------- runs

  /** No neighbour is ever marked down and no sequence report overtakes what a node accepted. */
  ghost predicate Smooth(r: seq<Net>, acts: seq<Action>)
  {
    && IsRun(r, acts) && DistinctBuckets(r[0])
    && forall i {:trigger SmoothAt(r, acts, i)} :: 0 <= i < |acts| ==> SmoothAt(r, acts, i)
  }

  ghost predicate SmoothAt(r: seq<Net>, acts: seq<Action>, i: nat)
    requires i < |acts| < |r|
  {
    var n := acts[i].node;
    && n in r[i].nodes && n in r[i + 1].nodes
    && AllUp(r[i + 1].nodes[n]) && !Overtakes(r[i].nodes[n], acts[i].ev)
  }

  /** In a smooth run, whoever originated an instance, or accepted it with a time to live above 1, holds its
      advertisement for each neighbour until that neighbour stores the instance or a later one. */
  lemma {:induction false} RunReliable(r: seq<Net>, acts: seq<Action>, i: nat)
    requires Smooth(r, acts) && i < |r|
    ensures Reliable(r[i]) && r[i].nodes.Keys == r[0].nodes.Keys
  {
    if i == 0 {
      StartReliable(r[0]);
    } else {
      RunReliable(r, acts, i - 1);
      ReliableStep(r, acts, i - 1);
    }
  }

  lemma SmoothFacts(r: seq<Net>, acts: seq<Action>, i: nat)
    requires Smooth(r, acts) && i < |acts|
    ensures Possible(r[i], acts[i]) && r[i + 1] == Next(r[i], acts[i])
    ensures AllUp(Step(r[i].nodes[acts[i].node], acts[i].ev)) && !Overtakes(r[i].nodes[acts[i].node], acts[i].ev)
  {
    assert StepAt(r, acts, i) && SmoothAt(r, acts, i);
  }

  lemma ReliableStep(r: seq<Net>, acts: seq<Action>, i: nat)
    requires Smooth(r, acts) && i < |acts| && Reliable(r[i]) && r[i].nodes.Keys == r[0].nodes.Keys
    ensures Reliable(r[i + 1]) && r[i + 1].nodes.Keys == r[0].nodes.Keys
  {
    SmoothFacts(r, acts, i);
    NextReliable(r[i], acts[i]);
  }

  /** Nothing is queued or waits for an acknowledgement. */
  ghost predicate Quiet(net: Net)
  {
    forall n: nat, dst: Addr, pk: Packet :: n in net.nodes && pk.Ad? ==> Held(net.nodes[n], dst, pk) == 0
  }

  ghost function NbGraph(net: Net): Graph
  {
    set n, i | n in net.nodes && 0 <= i < |net.nodes[n].nbs| :: (n, net.nodes[n].nbs[i].key)
  }

  /** If an instance ran out of hops somewhere, at least 33 nodes have it. */
  lemma LastHop(net: Net, n: nat, o: nat, q: nat, v: nat)
    requires Inv(net) && |net.nodes| <= LSA_MAX_TTL + 1 && v in net.nodes
    requires (n, o, q) in net.hop && net.hop[(n, o, q)] == LSA_MAX_TTL
    ensures Has(net, v, o, q)
  {
    var hs := Holders(net, o, q);
    if v !in hs {
      SubsetSize(hs + {v}, net.nodes.Keys);
    }
  }

  /** In a quiet network what a node has, its neighbours have. */
  lemma PassedOn(net: Net, w: nat, i: nat, o: nat, q: nat)
    requires Inv(net) && Quiet(net) && |net.nodes| <= LSA_MAX_TTL + 1
    requires w in net.nodes && Serves(net, w) && i < |net.nodes[w].nbs| && net.nodes[w].nbs[i].key in net.nodes
    requires (w, o, q) in net.hop && Has(net, w, o, q) && Has(net, o, o, q)
    ensures Has(net, net.nodes[w].nbs[i].key, o, q)
  {
    var v := net.nodes[w].nbs[i].key;
    if net.hop[(w, o, q)] >= LSA_MAX_TTL {
      LastHop(net, w, o, q, v);
    } else if v != w && v != o {
      assert Owes(net, w, i, o, q);
      assert Served(net, w, v, o, q);
    }
  }

  /** A node that has the last flooded number of o took exactly that number. */
  lemma TookLast(net: Net, w: nat, o: nat, q: nat)
    requires NumbersOk(net) && w in net.nodes && Taken(net, w) && Has(net, w, o, q)
    requires o in net.nodes && o in net.nodes[o].lsas && q + 1 == net.nodes[o].lsas[o].seqNum
    ensures (w, o, q) in net.hop
  {
    if w != o {
      assert NumberOk(net, w, o);
    }
  }

  lemma LinkPassesOn(net: Net, o: nat, q: nat, w: nat, v: nat)
    requires Reliable(net) && Quiet(net) && |net.nodes| <= LSA_MAX_TTL + 1
    requires o in net.nodes && o in net.nodes[o].lsas && q + 1 == net.nodes[o].lsas[o].seqNum
    requires Has(net, w, o, q) && (w, v) in NbGraph(net)
    ensures Has(net, v, o, q)
  {
    assert NodeOk(net, w);
    var i: nat :| i < |net.nodes[w].nbs| && net.nodes[w].nbs[i].key == v;
    TookLast(net, w, o, q);
    PassedOn(net, w, i, o, q);
  }

  lemma {:induction false} ReachedHas(net: Net, o: nat, q: nat, v: nat, k: nat)
    requires Reliable(net) && Quiet(net) && |net.nodes| <= LSA_MAX_TTL + 1
    requires o in net.nodes && o in net.nodes[o].lsas && q + 1 == net.nodes[o].lsas[o].seqNum
    requires Hops(NbGraph(net), o, v, k)
    ensures Has(net, v, o, q)
    decreases k
  {
    if k > 0 {
      var w: nat :| Hops(NbGraph(net), o, w, k - 1) && (w, v) in NbGraph(net);
      ReachedHas(net, o, q, w, k - 1);
      LinkPassesOn(net, o, q, w, v);
    }
  }

  /** Reliable flooding: in a smooth run of at most 33 nodes whose ids differ modulo the bucket count, once
      nothing is queued or pending, every node that o reaches over neighbour links stores exactly the last number
      that o flooded. Datagrams may still be on the wire, and any of them may have been lost or doubled. */
  lemma ReliableFlooding(r: seq<Net>, acts: seq<Action>, i: nat, o: nat, v: nat)
    requires Smooth(r, acts) && i < |r| && Quiet(r[i]) && |r[i].nodes| <= 33
    requires o in r[i].nodes && v != o && Reachable(NbGraph(r[i]), o, v)
    ensures v in r[i].nodes && o in r[i].nodes[v].lsas && o in r[i].nodes[o].lsas
    ensures r[i].nodes[v].lsas[o].seqNum == r[i].nodes[o].lsas[o].seqNum - 1
  {
    RunReliable(r, acts, i);
    assert NodeOk(r[i], o);
    var k: nat :| Hops(NbGraph(r[i]), o, v, k);
    ReachedHas(r[i], o, r[i].nodes[o].lsas[o].seqNum - 1, v, k);
    assert NumberOk(r[i], v, o);
  }
}
