/** Any number of daemons joined by a network that may lose, duplicate, delay and reorder datagrams. */
module Network {
  import opened HashTables
  import opened Types
  import opened Protocol
  import opened Effects
  import opened Steps

  datatype Datagram = Datagram(src: Addr, dst: Addr, packet: Packet)

  /** `wire` holds every datagram ever sent: each may arrive any number of times, at any time, or never.
      `hop` and `content` are history: how many hops the instance (origin, number) took to a node that
      originated or accepted it, and what the origin announced under that number. */
  datatype Net = Net(
    addr: map<nat, Addr>,
    nodes: map<nat, Node>,
    wire: set<Datagram>,
    hop: map<(nat, nat, nat), nat>,
    content: map<(nat, nat), Body>)

  datatype Action = Action(node: nat, ev: Event)

  ghost predicate Possible(net: Net, a: Action)
  {
    && a.node in net.nodes && a.node in net.addr && Enabled(net.nodes[a.node], a.ev)
    && (a.ev.Deliver? ==> Datagram(a.ev.from, net.addr[a.node], a.ev.packet) in net.wire)
    && (a.ev.Tick? ==> a.ev.elapsed > 0)
  }

  /** Hops that the advertisement had behind it when it arrived. */
  ghost function HopsBehind(net: Net, from: Addr, ad: Packet): nat
    requires ad.Ad?
  {
    if m: nat :| m in net.addr && net.addr[m] == from && (m, ad.origin, ad.seqNum) in net.hop
    then net.hop[(m, ad.origin, ad.seqNum)] + 1
    else 0
  }

  ghost function Sent(queue: seq<Pending>, src: Addr): set<Datagram>
  {
    set i | 0 <= i < |queue| :: Datagram(src, queue[i].dst, queue[i].packet)
  }

  ghost function Next(net: Net, a: Action): Net
    requires Possible(net, a)
  {
    var s := net.nodes[a.node];
    var wire := if a.ev.SendAll? then net.wire + Sent(s.queue, net.addr[a.node]) else net.wire;
    var moved := net.(nodes := net.nodes[a.node := Step(s, a.ev)], wire := wire);
    if Accepts(s, a.ev) then
      var instance := (a.node, a.ev.packet.origin, a.ev.packet.seqNum);
      moved.(hop := net.hop[instance := HopsBehind(net, a.ev.from, a.ev.packet)])
    else if FloodsOwn(s, a.ev) then
      var lsa := FloodOf(s, a.ev).value.lsa;
      moved.(hop := net.hop[(s.nid, s.nid, lsa.seqNum) := 0], content := net.content[(s.nid, lsa.seqNum) := lsa.body])
    else moved
  }

  /** Node n has flooded (n == o) or stores (n != o) number q of origin o, or a later one. */
  ghost predicate Has(net: Net, n: nat, o: nat, q: nat)
  {
    && n in net.nodes && o in net.nodes[n].lsas
    && if n == o then q < net.nodes[n].lsas[o].seqNum else q <= net.nodes[n].lsas[o].seqNum
  }

  ghost function Holders(net: Net, o: nat, q: nat): set<nat>
  {
    set n | n in net.nodes && Has(net, n, o, q)
  }

  /** What a packet from node n may say. */
  ghost predicate PacketOk(net: Net, n: nat, pk: Packet)
  {
    match pk
    case Ad(ttl, o, q, body) =>
      && (n, o, q) in net.hop && (o, q) in net.content && body == net.content[(o, q)]
      && ttl == LSA_MAX_TTL - net.hop[(n, o, q)] && ttl >= 1
    case Ack(o, q) => o != n && Has(net, n, o, q)
    case Seq(o, q) => o != n && Has(net, n, o, q)
  }

  ghost predicate NbsOk(net: Net, nbs: seq<Entry<nat, Neighbour>>)
  {
    && (forall i :: 0 <= i < |nbs| ==>
          nbs[i].key in net.nodes && nbs[i].key in net.addr && nbs[i].val.Address() == net.addr[nbs[i].key])
    && (forall i, j :: 0 <= i < j < |nbs| ==> nbs[i].key != nbs[j].key)
  }

  ghost predicate NodeOk(net: Net, n: nat)
    requires n in net.nodes
  {
    var s := net.nodes[n];
    && s.nid == n && n in s.lsas && s.lsas[n].ttl == LSA_MAX_TTL
    && PendShape(s.pend) && NbsOk(net, s.nbs) && s.lsas.Keys <= net.nodes.Keys
    && (forall dst, pk :: Held(s, dst, pk) > 0 ==> PacketOk(net, n, pk))
  }

  /** A stored number is one that its origin has flooded. */
  ghost predicate NumbersOk(net: Net)
  {
    forall n, o {:trigger NumberOk(net, n, o)} :: NumberOk(net, n, o)
  }

  ghost predicate NumberOk(net: Net, n: nat, o: nat)
  {
    n in net.nodes && o in net.nodes[n].lsas && o != n ==> Has(net, o, o, net.nodes[n].lsas[o].seqNum)
  }

  ghost predicate AddrOk(net: Net)
  {
    && net.addr.Keys == net.nodes.Keys
    && forall m, n :: m in net.addr && n in net.addr && net.addr[m] == net.addr[n] ==> m == n
  }

  ghost predicate WireOk(net: Net)
  {
    forall d :: d in net.wire ==> exists m ::
      m in net.nodes && m in net.addr && net.addr[m] == d.src && PacketOk(net, m, d.packet)
  }

  ghost predicate HistoryOk(net: Net)
  {
    && (forall n, o, q :: (n, o, q) in net.hop ==>
          && Has(net, n, o, q) && (o, q) in net.content
          && net.hop[(n, o, q)] <= LSA_MAX_TTL && (net.hop[(n, o, q)] == 0 <==> n == o)
          && net.hop[(n, o, q)] < |Holders(net, o, q)|)
    && (forall o, q :: (o, q) in net.content ==> (o, o, q) in net.hop)
  }

  ghost predicate Inv(net: Net)
  {
    && AddrOk(net) && (forall n {:trigger NodeOk(net, n)} :: n in net.nodes ==> NodeOk(net, n))
    && NumbersOk(net) && WireOk(net) && HistoryOk(net)
  }

  /** History and stored numbers only grow. */
  ghost predicate Grows(net: Net, net': Net)
  {
    && net'.addr == net.addr && net'.nodes.Keys == net.nodes.Keys && net.wire <= net'.wire
    && (forall k :: k in net.hop ==> k in net'.hop && net'.hop[k] == net.hop[k])
    && (forall k :: k in net.content ==> k in net'.content && net'.content[k] == net.content[k])
    && (forall n, o, q :: Has(net, n, o, q) ==> Has(net', n, o, q))
  }

  lemma PacketGrows(net: Net, net': Net, n: nat, pk: Packet)
    requires Grows(net, net') && PacketOk(net, n, pk)
    ensures PacketOk(net', n, pk)
  {
  }

  /** One event as a pair of network states, without the workings of the node. */
  datatype Move = Move(net: Net, net': Net, n: nat, ev: Event, accepts: bool, f: Option<FloodRun>)
  {
    ghost predicate Ok()
    {
      && n in net.nodes && n in net.addr && net.nodes[n].nid == n
      && n in net'.nodes && net'.nodes == net.nodes[n := net'.nodes[n]]
      && Summary(net.nodes[n], ev, net'.nodes[n], accepts, f)
      && net'.addr == net.addr && net.wire <= net'.wire
      && (forall d :: d in net'.wire && d !in net.wire ==> d in Sent(net.nodes[n].queue, net.addr[n]))
      && (ev.Deliver? ==> Datagram(ev.from, net.addr[n], ev.packet) in net.wire)
      && if accepts then
           && net'.hop == net.hop[(n, ev.packet.origin, ev.packet.seqNum) := HopsBehind(net, ev.from, ev.packet)]
           && net'.content == net.content
         else if f.Some? && f.value.origin == n then
           && net'.hop == net.hop[(n, n, f.value.lsa.seqNum) := 0]
           && net'.content == net.content[(n, f.value.lsa.seqNum) := f.value.lsa.body]
         else net'.hop == net.hop && net'.content == net.content
    }
  }

  /** The sender of an arriving packet, and what it can say. */
  lemma Arrival(net: Net, n: nat, ev: Event) returns (m: nat)
    requires AddrOk(net) && WireOk(net) && n in net.addr && ev.Deliver?
    requires Datagram(ev.from, net.addr[n], ev.packet) in net.wire
    ensures m in net.nodes && m in net.addr && net.addr[m] == ev.from && PacketOk(net, m, ev.packet)
    ensures ev.packet.Ad? ==> HopsBehind(net, ev.from, ev.packet) == LSA_MAX_TTL + 1 - ev.packet.ttl
  {
    var d := Datagram(ev.from, net.addr[n], ev.packet);
    m :| m in net.nodes && m in net.addr && net.addr[m] == d.src && PacketOk(net, m, d.packet);
    if ev.packet.Ad? {
      HopsBehindIs(net, m, ev.packet);
    }
  }

  lemma HopsBehindIs(net: Net, m: nat, ad: Packet)
    requires AddrOk(net) && m in net.addr && ad.Ad? && (m, ad.origin, ad.seqNum) in net.hop
    ensures HopsBehind(net, net.addr[m], ad) == net.hop[(m, ad.origin, ad.seqNum)] + 1
  {
  }

  /** No instance is flooded or accepted twice by the same node. */
  lemma FirstTime(mv: Move)
    requires mv.Ok() && HistoryOk(mv.net)
    ensures mv.accepts ==> (mv.n, mv.ev.packet.origin, mv.ev.packet.seqNum) !in mv.net.hop
    ensures mv.f.Some? && mv.f.value.origin == mv.n ==>
      (mv.n, mv.n, mv.f.value.lsa.seqNum) !in mv.net.hop && (mv.n, mv.f.value.lsa.seqNum) !in mv.net.content
  {
  }

  lemma HasGrows(mv: Move, n: nat, o: nat, q: nat)
    requires mv.Ok() && Has(mv.net, n, o, q)
    ensures Has(mv.net', n, o, q)
  {
  }

  lemma MoveGrows(mv: Move)
    requires mv.Ok() && HistoryOk(mv.net)
    ensures Grows(mv.net, mv.net')
  {
    FirstTime(mv);
    forall n, o, q | Has(mv.net, n, o, q)
      ensures Has(mv.net', n, o, q)
    {
      HasGrows(mv, n, o, q);
    }
  }

  /** The origin of a number that a packet names has flooded that number. */
  lemma OriginHas(net: Net, m: nat, pk: Packet)
    requires HistoryOk(net) && NumbersOk(net) && m in net.nodes && PacketOk(net, m, pk)
    ensures Has(net, pk.origin, pk.origin, pk.seqNum)
  {
    if pk.Ad? {
      assert (pk.origin, pk.origin, pk.seqNum) in net.hop;
    } else {
      assert NumberOk(net, m, pk.origin);
    }
  }

  lemma MoveNumbers(mv: Move)
    requires mv.Ok() && HistoryOk(mv.net) && NumbersOk(mv.net) && AddrOk(mv.net) && WireOk(mv.net)
    ensures NumbersOk(mv.net') && (mv.net.nodes[mv.n].lsas.Keys <= mv.net.nodes.Keys ==>
      mv.net'.nodes[mv.n].lsas.Keys <= mv.net.nodes.Keys)
  {
    var net, net', s, s' := mv.net, mv.net', mv.net.nodes[mv.n], mv.net'.nodes[mv.n];
    forall n: nat, o: nat
      ensures NumberOk(net', n, o)
    {
      if n in net'.nodes && o in net'.nodes[n].lsas && o != n {
        assert NumberOk(net, n, o);
        if n == mv.n && !(o in s.lsas && s.lsas[o].seqNum == s'.lsas[o].seqNum) {
          var m := Arrival(net, mv.n, mv.ev);
          OriginHas(net, m, mv.ev.packet);
        }
        HasGrows(mv, o, o, net'.nodes[n].lsas[o].seqNum);
      }
    }
    forall o | o in s'.lsas && o !in s.lsas
      ensures o in net.nodes
    {
      var m := Arrival(net, mv.n, mv.ev);
      OriginHas(net, m, mv.ev.packet);
    }
  }

  lemma {:induction false} SubsetSize(a: set<nat>, b: set<nat>)
    requires a <= b
    ensures |a| <= |b|
  {
    if a != {} {
      var x :| x in a;
      SubsetSize(a - {x}, b - {x});
    }
  }

  lemma HoldersGrow(net: Net, net': Net, o: nat, q: nat)
    requires Grows(net, net')
    ensures |Holders(net, o, q)| <= |Holders(net', o, q)|
    ensures forall n :: Has(net', n, o, q) && !Has(net, n, o, q) ==> |Holders(net, o, q)| < |Holders(net', o, q)|
  {
    SubsetSize(Holders(net, o, q), Holders(net', o, q));
    forall n | Has(net', n, o, q) && !Has(net, n, o, q)
      ensures |Holders(net, o, q)| < |Holders(net', o, q)|
    {
      SubsetSize(Holders(net, o, q) + {n}, Holders(net', o, q));
    }
  }

  lemma MoveHistory(mv: Move)
    requires mv.Ok() && HistoryOk(mv.net) && AddrOk(mv.net) && WireOk(mv.net)
    ensures HistoryOk(mv.net')
  {
    var net, net' := mv.net, mv.net';
    MoveGrows(mv);
    FirstTime(mv);
    forall n, o, q | (n, o, q) in net'.hop
      ensures && Has(net', n, o, q) && (o, q) in net'.content
              && net'.hop[(n, o, q)] <= LSA_MAX_TTL && (net'.hop[(n, o, q)] == 0 <==> n == o)
              && net'.hop[(n, o, q)] < |Holders(net', o, q)|
    {
      HoldersGrow(net, net', o, q);
      if (n, o, q) !in net.hop {
        assert Has(net', n, o, q) && !Has(net, n, o, q);
        if mv.accepts {
          var m := Arrival(net, mv.n, mv.ev);
        }
      }
    }
  }

  lemma FloodedOk(mv: Move, pk: Packet)
    requires mv.Ok() && HistoryOk(mv.net) && AddrOk(mv.net) && WireOk(mv.net) && FloodedBy(mv.f, pk)
    ensures PacketOk(mv.net', mv.n, pk)
  {
    if mv.accepts {
      var m := Arrival(mv.net, mv.n, mv.ev);
    }
  }

  lemma MoveHeld(mv: Move, dst: Addr, pk: Packet)
    requires mv.Ok() && HistoryOk(mv.net) && AddrOk(mv.net) && WireOk(mv.net)
    requires Held(mv.net'.nodes[mv.n], dst, pk) > 0
    requires Held(mv.net.nodes[mv.n], dst, pk) > 0 ==> PacketOk(mv.net, mv.n, pk)
    ensures PacketOk(mv.net', mv.n, pk)
  {
    MoveGrows(mv);
    if Held(mv.net.nodes[mv.n], dst, pk) > 0 {
      PacketGrows(mv.net, mv.net', mv.n, pk);
    } else if pk.Ad? {
      FloodedOk(mv, pk);
    }
  }

  lemma MoveWire(mv: Move)
    requires mv.Ok() && HistoryOk(mv.net) && AddrOk(mv.net) && WireOk(mv.net) && NodeOk(mv.net, mv.n)
    ensures WireOk(mv.net')
  {
    var net, net', s := mv.net, mv.net', mv.net.nodes[mv.n];
    MoveGrows(mv);
    forall d | d in net'.wire
      ensures exists m :: m in net'.nodes && m in net'.addr && net'.addr[m] == d.src && PacketOk(net', m, d.packet)
    {
      if d in net.wire {
        var m :| m in net.nodes && m in net.addr && net.addr[m] == d.src && PacketOk(net, m, d.packet);
        PacketGrows(net, net', m, d.packet);
      } else {
        var i :| 0 <= i < |s.queue| && d == Datagram(net.addr[mv.n], s.queue[i].dst, s.queue[i].packet);
        CountAt(s.queue, i);
        assert Held(s, s.queue[i].dst, s.queue[i].packet) > 0;
        PacketGrows(net, net', mv.n, d.packet);
      }
    }
  }

  lemma MoveNode(mv: Move, n: nat)
    requires mv.Ok() && HistoryOk(mv.net) && AddrOk(mv.net) && WireOk(mv.net) && NumbersOk(mv.net)
    requires n in mv.net.nodes && NodeOk(mv.net, n)
    ensures NodeOk(mv.net', n)
  {
    MoveGrows(mv);
    MoveNumbers(mv);
    forall dst, pk | Held(mv.net'.nodes[n], dst, pk) > 0
      ensures PacketOk(mv.net', n, pk)
    {
      if n == mv.n {
        MoveHeld(mv, dst, pk);
      } else {
        PacketGrows(mv.net, mv.net', n, pk);
      }
    }
  }

  lemma MoveInv(mv: Move)
    requires mv.Ok() && Inv(mv.net)
    ensures Inv(mv.net') && Grows(mv.net, mv.net')
  {
    MoveGrows(mv);
    MoveNumbers(mv);
    MoveHistory(mv);
    MoveWire(mv);
    forall n | n in mv.net'.nodes
      ensures NodeOk(mv.net', n)
    {
      MoveNode(mv, n);
    }
  }

  ghost function MoveOf(net: Net, a: Action): Move
    requires Possible(net, a)
  {
    var s := net.nodes[a.node];
    Move(net, Next(net, a), a.node, a.ev, Accepts(s, a.ev), FloodOf(s, a.ev))
  }

  lemma NextIsMove(net: Net, a: Action)
    requires Inv(net) && Possible(net, a)
    ensures MoveOf(net, a).Ok()
  {
    var s := net.nodes[a.node];
    assert NodeOk(net, a.node);
    if a.ev.Deliver? {
      var m := Arrival(net, a.node, a.ev);
    }
    StepSummary(s, a.ev);
  }

  /** Every event keeps the invariant, and what is known never shrinks. */
  lemma NextInv(net: Net, a: Action)
    requires Inv(net) && Possible(net, a)
    ensures Inv(Next(net, a)) && Grows(net, Next(net, a))
  {
    NextIsMove(net, a);
    MoveInv(MoveOf(net, a));
  }
}
