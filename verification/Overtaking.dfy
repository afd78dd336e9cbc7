/** A run without restarts in which a sequence report overtakes an advertisement, so that the advertisement is lost. */
module Overtaking {
  import opened HashTables
  import opened Types
  import opened Protocol
  import opened Effects
  import opened Steps
  import opened Network
  import opened Flooding
  import opened Reliable
  import opened Recovery

  // ---------------------------------------------------------------- three nodes, all neighbours of each other

  function At(n: nat): Addr { Addr("host", n) }

  function Line(n: nat): Entry<nat, Neighbour> { Entry(n, Neighbour("host", n, 0, 0, true)) }

  function Table(): seq<Entry<nat, Neighbour>> { [Line(1), Line(2), Line(3)] }

  function Fresh(n: nat): Node { Boot(n, Timers(1, 1, 1, 1), Table(), []) }

  lemma FreshIs(n: nat)
    requires 1 <= n <= 3
    ensures var s := Fresh(n);
      && s.nid == n && s.nbs == Table() && s.files == [] && s.lsas.Keys == {n} && s.lsas[n].seqNum == 1
      && s.lsas[n].ttl == LSA_MAX_TTL && |s.pend| == PEND_ACK_BUCKET_SIZE && PendShape(s.pend)
      && s == Boot(n, s.timers, s.nbs, s.files)
  {
    BootHolds(n, Timers(1, 1, 1, 1), Table(), [], At(n), Ack(0, 0));
  }

  ghost function StartNet(): Net
  {
    Net(map n: nat | n in {1, 2, 3} :: At(n), map n: nat | n in {1, 2, 3} :: Fresh(n), {},
        map n: nat | n in {1, 2, 3} :: (n, n, 0) := 0, map n: nat | n in {1, 2, 3} :: (n, 0) := OwnBody(Fresh(n), n))
  }

  ghost function OwnBody(s: Node, n: nat): Body
  {
    if n in s.lsas then s.lsas[n].body else Body([], [])
  }

  lemma TableFacts(n: nat)
    requires 1 <= n <= 3
    ensures IsNb(Table(), n) && forall i :: 0 <= i < 3 ==> Table()[i].key == i + 1 && Table()[i].val.valid
    ensures forall i :: 0 <= i < 3 ==> Table()[i].val.Address() == At(i + 1)
  {
    assert Table()[n - 1].key == n;
  }

  /** The three nodes with their addresses. */
  ghost predicate Addressed(net: Net)
  {
    net.addr.Keys == {1, 2, 3} == net.nodes.Keys && net.addr[1] == At(1) && net.addr[2] == At(2) && net.addr[3] == At(3)
  }

  lemma TableOk(net: Net)
    requires Addressed(net)
    ensures NbsOk(net, Table()) && AddrOk(net)
  {
    TableFacts(1);
    assert At(1) != At(2) && At(2) != At(3) && At(1) != At(3);
  }

  lemma StartAddressed()
    ensures Addressed(StartNet()) && StartNet().wire == {}
  {
    var net := StartNet();
    assert net.addr.Keys == {1, 2, 3} && net.nodes.Keys == {1, 2, 3};
  }

  lemma StartNodeIs(n: nat)
    requires n in StartNet().nodes
    ensures var net := StartNet();
      net.nodes[n] == Fresh(n) && (n, 0) in net.content && net.content[(n, 0)] == OwnBody(Fresh(n), n)
  {
  }

  lemma HistoryHere()
    ensures var net := StartNet();
      && (forall k :: k in net.hop <==> k.0 in net.nodes && k == (k.0, k.0, 0))
      && (forall k :: k in net.hop ==> net.hop[k] == 0)
      && (forall k :: k in net.content <==> k.0 in net.nodes && k.1 == 0)
  {
    var net := StartNet();
    forall k: (nat, nat, nat)
      ensures k in net.hop <==> k.0 in net.nodes && k == (k.0, k.0, 0)
    {
      if k.0 in {1, 2, 3} && k == (k.0, k.0, 0) { assert k in net.hop; }
    }
    forall k: (nat, nat)
      ensures k in net.content <==> k.0 in net.nodes && k.1 == 0
    {
      assert k == (k.0, k.1);
    }
  }

  lemma StartsAtHere(net: Net, n: nat)
    requires Addressed(net) && n in net.nodes && net.nodes[n] == Fresh(n)
    requires (n, 0) in net.content && net.content[(n, 0)] == OwnBody(Fresh(n), n)
    ensures StartsAt(net, n)
  {
    TableOk(net);
    TableFacts(n);
    FreshIs(n);
  }

  lemma StartsHere()
    ensures Starts(StartNet()) && Addressed(StartNet())
  {
    var net := StartNet();
    StartAddressed();
    HistoryHere();
    TableOk(net);
    forall n | n in net.nodes
      ensures StartsAt(net, n)
    {
      StartNodeIs(n);
      StartsAtHere(net, n);
    }
  }

  // ---------------------------------------------------------------- what single events do

  /** A queued packet that is sent is on the wire. */
  lemma Sending(net: Net, n: nat, dst: Addr, pk: Packet)
    requires Possible(net, Action(n, SendAll)) && Count(net.nodes[n].queue, dst, pk) > 0
    ensures Datagram(net.addr[n], dst, pk) in Next(net, Action(n, SendAll)).wire
  {
    var i := CountedAt(net.nodes[n].queue, dst, pk);
    assert Datagram(net.addr[n], dst, pk) in Sent(net.nodes[n].queue, net.addr[n]);
  }

  lemma NextIs(net: Net, a: Action)
    requires Possible(net, a)
    ensures var net' := Next(net, a);
      net'.addr == net.addr && net'.nodes == net.nodes[a.node := Step(net.nodes[a.node], a.ev)] && net.wire <= net'.wire
  {
  }

  /** After the start the own advertisement is queued for the others. */
  lemma StartQueue(n: nat, m: nat)
    requires 1 <= n <= 3 && 1 <= m <= 3 && n != m
    ensures n in Fresh(n).lsas && Count(Fresh(n).queue, At(m), Ad(LSA_MAX_TTL, n, 0, Fresh(n).lsas[n].body)) > 0
  {
    var s := Fresh(n);
    FreshIs(n);
    BootHolds(n, Timers(1, 1, 1, 1), Table(), [], At(m), Ad(LSA_MAX_TTL, n, 0, s.lsas[n].body));
    TargetCounted(Table(), n, n, None, m - 1);
    assert Table()[m - 1].val.Address() == At(m);
  }

  /** Whatever a flood creates for a neighbour is counted. */
  lemma NewFor(s: Node, ev: Event, m: nat)
    requires Enabled(s, ev) && FloodOf(s, ev).Some? && FloodOf(s, ev).value.nbs == Table() && 1 <= m <= 3
    requires Target(Table()[m - 1], s.nid, FloodOf(s, ev).value.origin, FloodOf(s, ev).value.except)
    ensures Count(NewAds(s, ev), At(m), FloodOf(s, ev).value.Packet()) > 0
  {
    NewForRun(FloodOf(s, ev).value, s.nid, s.timers.retran, m);
  }

  lemma NewForRun(f: FloodRun, self: nat, retran: int, m: nat)
    requires f.nbs == Table() && 1 <= m <= 3 && Target(Table()[m - 1], self, f.origin, f.except)
    ensures Count(FloodAds(f.nbs, self, f.origin, f.except, f.lsa, retran), At(m), f.Packet()) > 0
  {
    TargetCounted(f.nbs, self, f.origin, f.except, m - 1);
    FloodAdsCount(f.nbs, self, f.origin, f.except, f.lsa, retran, At(m), f.Packet());
    assert Table()[m - 1].val.Address() == At(m);
  }

  /** The origin publishes a file and so floods its number 1. */
  lemma Publishing(s: Node) returns (b: Body)
    requires Ready(s)
    ensures var ev := AddFile("f", ["f"]); var s' := Step(s, ev);
      && Enabled(s, ev) && s'.nid == 1 && 1 in s'.lsas && |s'.pend| == PEND_ACK_BUCKET_SIZE
      && Count(s'.queue, At(2), Ad(LSA_MAX_TTL, 1, 1, b)) > 0 && Count(s'.queue, At(3), Ad(LSA_MAX_TTL, 1, 1, b)) > 0
  {
    var ev := AddFile("f", ["f"]);
    assert multiset(["f"]) == multiset([]) + multiset{"f"};
    var f := FloodOf(s, ev).value;
    b := f.lsa.body;
    NewFor(s, ev, 2);
    NewFor(s, ev, 3);
    FileCount(s, ev, At(2), f.Packet());
    FileCount(s, ev, At(3), f.Packet());
  }

  /** A packet of node 1 arrives from it. */
  function FromOrigin(q: nat, b: Body): Event { Deliver(Ad(LSA_MAX_TTL, 1, q, b), At(1)) }

  /** A fresh node takes a first advertisement of node 1 and passes it on. */
  lemma Taking(s: Node, n: nat, q: nat, b: Body)
    requires 2 <= n <= 3 && s == Fresh(n)
    ensures var ev := FromOrigin(q, b); var s' := Step(s, ev);
      && Enabled(s, ev) && s'.nid == n && n in s'.lsas && 1 in s'.lsas && s'.lsas[1].seqNum == q
      && |s'.pend| == PEND_ACK_BUCKET_SIZE
      && Count(s'.queue, At(5 - n), Ad(LSA_MAX_TTL - 1, 1, q, b)) > 0
  {
    FreshIs(n);
    var ev := FromOrigin(q, b);
    AcceptEffect(s, ev);
    NotDown(s, 1);
    NewFor(s, ev, 5 - n);
    RecvAdCount(s, ev, At(5 - n), Ad(LSA_MAX_TTL - 1, 1, q, b));
  }

  lemma NotDown(s: Node, id: nat)
    requires s.nbs == Table()
    ensures !IsDown(s.nbs, id)
  {
  }

  // ---------------------------------------------------------------- the run

  /** A run up to `net`. */
  ghost predicate Reaches(r: seq<Net>, acts: seq<Action>, net: Net)
  {
    IsRun(r, acts) && r[|r| - 1] == net
  }

  lemma Extend(r: seq<Net>, acts: seq<Action>, net: Net, a: Action) returns (r': seq<Net>, acts': seq<Action>)
    requires Reaches(r, acts, net) && Possible(net, a)
    ensures r' == r + [Next(net, a)] && acts' == acts + [a] && Reaches(r', acts', Next(net, a))
  {
    r', acts' := r + [Next(net, a)], acts + [a];
    forall i: nat {:trigger StepAt(r', acts', i)} | i < |acts'|
      ensures StepAt(r', acts', i)
    {
      if i < |acts| {
        StepKept(r, acts, Next(net, a), a, i);
      }
    }
  }

  lemma StepKept(r: seq<Net>, acts: seq<Action>, net': Net, a: Action, i: nat)
    requires IsRun(r, acts) && i < |acts|
    ensures StepAt(r + [net'], acts + [a], i)
  {
    assert StepAt(r, acts, i);
  }

  /** One more event of the run. */
  lemma Act(r: seq<Net>, acts: seq<Action>, net: Net, a: Action) returns (r': seq<Net>, acts': seq<Action>, net': Net)
    requires Reaches(r, acts, net) && Possible(net, a)
    ensures Reaches(r', acts', net') && r' == r + [net'] && acts' == acts + [a]
    ensures net'.addr == net.addr
    ensures net'.nodes == net.nodes[a.node := Step(net.nodes[a.node], a.ev)] && net.wire <= net'.wire
  {
    r', acts' := Extend(r, acts, net, a);
    net' := Next(net, a);
    NextIs(net, a);
  }

  /** A node sends what it has queued. */
  lemma SendOut(r: seq<Net>, acts: seq<Action>, net: Net, n: nat) returns (r': seq<Net>, acts': seq<Action>, net': Net)
    requires Reaches(r, acts, net) && Possible(net, Action(n, SendAll))
    ensures Reaches(r', acts', net') && net'.addr == net.addr && net.wire <= net'.wire
    ensures net'.nodes == net.nodes[n := Send(net.nodes[n])]
    ensures forall dst, pk :: Count(net.nodes[n].queue, dst, pk) > 0 ==> Datagram(net.addr[n], dst, pk) in net'.wire
  {
    var a := Action(n, SendAll);
    r', acts' := Extend(r, acts, net, a);
    net' := Next(net, a);
    NextIs(net, a);
    forall dst, pk | Count(net.nodes[n].queue, dst, pk) > 0
      ensures Datagram(net.addr[n], dst, pk) in net'.wire
    {
      Sending(net, n, dst, pk);
    }
  }

  /** Node 1 has sent its advertisements 0 and 1, and the others have not heard of them. */
  ghost predicate Told(net: Net, b0: Body, b1: Body)
  {
    && Addressed(net) && net.nodes[2] == Fresh(2) && net.nodes[3] == Fresh(3)
    && Datagram(At(1), At(2), Ad(LSA_MAX_TTL, 1, 0, b0)) in net.wire
    && Datagram(At(1), At(2), Ad(LSA_MAX_TTL, 1, 1, b1)) in net.wire
    && Datagram(At(1), At(3), Ad(LSA_MAX_TTL, 1, 1, b1)) in net.wire
  }

  /** Node 1 has sent its number 0. */
  ghost predicate Started(net: Net, b0: Body)
  {
    && Addressed(net) && net.nodes[2] == Fresh(2) && net.nodes[3] == Fresh(3) && Ready(net.nodes[1])
    && Datagram(At(1), At(2), Ad(LSA_MAX_TTL, 1, 0, b0)) in net.wire
  }

  /** Node 1 before it publishes a file. */
  ghost predicate Ready(s: Node)
  {
    && s.nid == 1 && s.nbs == Table() && s.files == [] && 1 in s.lsas && s.lsas[1].seqNum == 1
    && |s.pend| == PEND_ACK_BUCKET_SIZE
  }

  lemma Starting() returns (r: seq<Net>, acts: seq<Action>, net: Net, b0: Body)
    ensures Reaches(r, acts, net) && Started(net, b0)
  {
    net := StartNet();
    r, acts := [net], [];
    StartsHere();
    StartNodeIs(1);
    StartNodeIs(2);
    StartNodeIs(3);
    FreshIs(1);
    StartQueue(1, 2);
    b0 := Fresh(1).lsas[1].body;
    r, acts, net := SendOut(r, acts, net, 1);
    StartedBy(StartNet(), net, b0);
  }

  lemma StartedBy(net: Net, net': Net, b0: Body)
    requires Addressed(net) && net.nodes[1] == Fresh(1) && net.nodes[2] == Fresh(2) && net.nodes[3] == Fresh(3)
    requires net'.addr == net.addr && net'.nodes == net.nodes[1 := Send(net.nodes[1])]
    requires Datagram(At(1), At(2), Ad(LSA_MAX_TTL, 1, 0, b0)) in net'.wire
    ensures Started(net', b0)
  {
    FreshIs(1);
  }

  /** Node 1 has number 1 in its send list. */
  ghost predicate Published(net: Net, b0: Body, b1: Body)
  {
    && Addressed(net) && net.nodes[2] == Fresh(2) && net.nodes[3] == Fresh(3)
    && Datagram(At(1), At(2), Ad(LSA_MAX_TTL, 1, 0, b0)) in net.wire && Possible(net, Action(1, SendAll))
    && Count(net.nodes[1].queue, At(2), Ad(LSA_MAX_TTL, 1, 1, b1)) > 0
    && Count(net.nodes[1].queue, At(3), Ad(LSA_MAX_TTL, 1, 1, b1)) > 0
  }

  lemma PublishedBy(net: Net, net': Net, b0: Body) returns (b1: Body)
    requires Started(net, b0) && net'.addr == net.addr && net.wire <= net'.wire
    requires net'.nodes == net.nodes[1 := Step(net.nodes[1], AddFile("f", ["f"]))]
    ensures Published(net', b0, b1)
  {
    b1 := Publishing(net.nodes[1]);
  }

  lemma ToldBy(net: Net, net': Net, b0: Body, b1: Body)
    requires Published(net, b0, b1) && net'.addr == net.addr && net.wire <= net'.wire
    requires net'.nodes == net.nodes[1 := Send(net.nodes[1])]
    requires Datagram(At(1), At(2), Ad(LSA_MAX_TTL, 1, 1, b1)) in net'.wire
    requires Datagram(At(1), At(3), Ad(LSA_MAX_TTL, 1, 1, b1)) in net'.wire
    ensures Told(net', b0, b1)
  {
  }

  lemma CanPublish(net: Net, b0: Body)
    requires Started(net, b0)
    ensures Possible(net, Action(1, AddFile("f", ["f"])))
  {
    var b := Publishing(net.nodes[1]);
  }

  lemma Telling() returns (r: seq<Net>, acts: seq<Action>, net: Net, b0: Body, b1: Body)
    ensures Reaches(r, acts, net) && Told(net, b0, b1)
  {
    r, acts, net, b0 := Starting();
    CanPublish(net, b0);
    var was := net;
    r, acts, net := Act(r, acts, net, Action(1, AddFile("f", ["f"])));
    b1 := PublishedBy(was, net, b0);
    was := net;
    r, acts, net := SendOut(r, acts, net, 1);
    ToldBy(was, net, b0, b1);
  }

  /** Node 3 stores number 1, node 2 has passed on number 0, and number 1 is still on its way to node 2. */
  ghost predicate Crossed(net: Net, b0: Body, b1: Body)
  {
    && Addressed(net) && Knows(net.nodes[2], 2, 0) && Knows(net.nodes[3], 3, 1)
    && Datagram(At(2), At(3), Ad(LSA_MAX_TTL - 1, 1, 0, b0)) in net.wire
    && Datagram(At(1), At(2), Ad(LSA_MAX_TTL, 1, 1, b1)) in net.wire
  }

  ghost predicate Knows(s: Node, n: nat, q: nat)
  {
    s.nid == n && n in s.lsas && 1 in s.lsas && s.lsas[1].seqNum == q && |s.pend| == PEND_ACK_BUCKET_SIZE
  }

  /** Node 3 has taken number 1. */
  ghost predicate Third(net: Net, b0: Body, b1: Body)
  {
    && Addressed(net) && net.nodes[2] == Fresh(2) && Knows(net.nodes[3], 3, 1)
    && Datagram(At(1), At(2), Ad(LSA_MAX_TTL, 1, 0, b0)) in net.wire
    && Datagram(At(1), At(2), Ad(LSA_MAX_TTL, 1, 1, b1)) in net.wire
  }

  /** Node 2 has taken number 0. */
  ghost predicate Second(net: Net, b0: Body, b1: Body)
  {
    && Addressed(net) && Knows(net.nodes[2], 2, 0) && Knows(net.nodes[3], 3, 1)
    && Count(net.nodes[2].queue, At(3), Ad(LSA_MAX_TTL - 1, 1, 0, b0)) > 0
    && Datagram(At(1), At(2), Ad(LSA_MAX_TTL, 1, 1, b1)) in net.wire
  }

  lemma ThirdBy(net: Net, net': Net, b0: Body, b1: Body)
    requires Told(net, b0, b1) && net'.addr == net.addr && net.wire <= net'.wire
    requires net'.nodes == net.nodes[3 := Step(net.nodes[3], FromOrigin(1, b1))]
    ensures Third(net', b0, b1)
  {
    Taking(net.nodes[3], 3, 1, b1);
  }

  lemma SecondBy(net: Net, net': Net, b0: Body, b1: Body)
    requires Third(net, b0, b1) && net'.addr == net.addr && net.wire <= net'.wire
    requires net'.nodes == net.nodes[2 := Step(net.nodes[2], FromOrigin(0, b0))]
    ensures Second(net', b0, b1)
  {
    Taking(net.nodes[2], 2, 0, b0);
  }

  lemma CrossedBy(net: Net, net': Net, b0: Body, b1: Body)
    requires Second(net, b0, b1) && net'.addr == net.addr && net.wire <= net'.wire
    requires net'.nodes == net.nodes[2 := Send(net.nodes[2])]
    requires Datagram(At(2), At(3), Ad(LSA_MAX_TTL - 1, 1, 0, b0)) in net'.wire
    ensures Crossed(net', b0, b1)
  {
  }

  lemma Crossing(r: seq<Net>, acts: seq<Action>, net: Net, b0: Body, b1: Body)
      returns (r': seq<Net>, acts': seq<Action>, net': Net)
    requires Reaches(r, acts, net) && Told(net, b0, b1)
    ensures Reaches(r', acts', net') && Crossed(net', b0, b1)
  {
    Taking(net.nodes[3], 3, 1, b1);
    r', acts', net' := Act(r, acts, net, Action(3, FromOrigin(1, b1)));
    ThirdBy(net, net', b0, b1);
    var was := net';
    Taking(was.nodes[2], 2, 0, b0);
    r', acts', net' := Act(r', acts', net', Action(2, FromOrigin(0, b0)));
    SecondBy(was, net', b0, b1);
    was := net';
    r', acts', net' := SendOut(r', acts', net', 2);
    CrossedBy(was, net', b0, b1);
  }

  /** A node that stores 1 reports it when it gets number 0. */
  lemma Reporting(s: Node, b: Body)
    requires Knows(s, 3, 1)
    ensures var ev := Deliver(Ad(LSA_MAX_TTL - 1, 1, 0, b), At(2)); var s' := Step(s, ev);
      && Enabled(s, ev) && s'.nid == 3 && 3 in s'.lsas && |s'.pend| == PEND_ACK_BUCKET_SIZE
      && Count(s'.queue, At(2), Seq(1, 1)) > 0
  {
    var ev := Deliver(Ad(LSA_MAX_TTL - 1, 1, 0, b), At(2));
    RecvAdQueue(s, ev);
    CountAt(Step(s, ev).queue, 0);
  }

  /** The report has reached the wire. */
  ghost predicate Reported(net: Net, b1: Body)
  {
    && Addressed(net) && Knows(net.nodes[2], 2, 0) && Datagram(At(3), At(2), Seq(1, 1)) in net.wire
    && Datagram(At(1), At(2), Ad(LSA_MAX_TTL, 1, 1, b1)) in net.wire
  }

  lemma ToReport(r: seq<Net>, acts: seq<Action>, net: Net, b0: Body, b1: Body)
      returns (r': seq<Net>, acts': seq<Action>, net': Net)
    requires Reaches(r, acts, net) && Crossed(net, b0, b1)
    ensures Reaches(r', acts', net') && Reported(net', b1)
  {
    Reporting(net.nodes[3], b0);
    r', acts', net' := Act(r, acts, net, Action(3, Deliver(Ad(LSA_MAX_TTL - 1, 1, 0, b0), At(2))));
    r', acts', net' := SendOut(r', acts', net', 3);
  }

  /** The report arrives. */
  lemma Arriving(r: seq<Net>, acts: seq<Action>, net: Net, b: Body)
    returns (r': seq<Net>, acts': seq<Action>, net': Net)
    requires Reaches(r, acts, net) && Reported(net, b)
    ensures var a := Action(2, Deliver(Seq(1, 1), At(3)));
      r' == r + [net'] && acts' == acts + [a] && Overtakes(net.nodes[2], a.ev)
    ensures Reaches(r', acts', net') && Addressed(net') && Knows(net'.nodes[2], 2, 1) && net.wire <= net'.wire
    ensures Has(net', 2, 1, 1) && (2, 1, 1) !in net'.hop
  {
    var a := Action(2, Deliver(Seq(1, 1), At(3)));
    RunInv(r, acts, |r| - 1, |r| - 1);
    r', acts' := Extend(r, acts, net, a);
    net' := Next(net, a);
    NextIs(net, a);
    OvertakenSkips(net, a);
  }

  /** A node that stores 1 does not take 1. */
  lemma NotTaking(s: Node, b: Body)
    requires Knows(s, 2, 1)
    ensures var ev := FromOrigin(1, b); Enabled(s, ev) && !Accepts(s, ev)
  {
  }

  /** At i node 2 gets a report that overtakes; at i + 1 it gets the advertisement, and does not take it. */
  ghost predicate Swallowed(r: seq<Net>, acts: seq<Action>, i: nat, b: Body)
  {
    && |r| == |acts| + 1 && i + 1 < |acts| && acts[i].node == 2 == acts[i + 1].node
    && 2 in r[i].nodes && Overtakes(r[i].nodes[2], acts[i].ev)
    && acts[i + 1].ev == FromOrigin(1, b)
    && 2 in r[i + 1].nodes && !Accepts(r[i + 1].nodes[2], acts[i + 1].ev)
  }

  /** The report arrives, and then the advertisement. */
  lemma Finishing(r: seq<Net>, acts: seq<Action>, net: Net, b: Body)
      returns (r': seq<Net>, acts': seq<Action>, net1: Net)
    requires Reaches(r, acts, net) && Reported(net, b)
    ensures IsRun(r', acts') && |r| < |r'| && r'[|r|] == net1
    ensures |r| == |acts| + 1 && Swallowed(r', acts', |acts|, b)
    ensures Has(net1, 2, 1, 1) && (2, 1, 1) !in net1.hop
  {
    r', acts', net1 := Arriving(r, acts, net, b);
    NotTaking(net1.nodes[2], b);
    var net2;
    r', acts', net2 := Act(r', acts', net1, Action(2, FromOrigin(1, b)));
  }

  /** Before the report arrives. */
  lemma Preparing() returns (r: seq<Net>, acts: seq<Action>, net: Net, b: Body)
    ensures Reaches(r, acts, net) && Reported(net, b)
  {
    var b0;
    r, acts, net, b0, b := Telling();
    r, acts, net := Crossing(r, acts, net, b0, b);
    r, acts, net := ToReport(r, acts, net, b0, b);
  }

  lemma NeverTaken(r: seq<Net>, acts: seq<Action>, i: nat)
    requires IsRun(r, acts) && i < |r| && Has(r[i], 2, 1, 1) && (2, 1, 1) !in r[i].hop
    ensures forall j :: i <= j < |r| ==> Has(r[j], 2, 1, 1) && (2, 1, 1) !in r[j].hop
  {
    forall j | i <= j < |r|
      ensures Has(r[j], 2, 1, 1) && (2, 1, 1) !in r[j].hop
    {
      SkippedForGood(r, acts, i, j, 2, 1, 1);
    }
  }

  lemma Ending(r0: seq<Net>, acts0: seq<Action>, net: Net, b: Body) returns (r: seq<Net>, acts: seq<Action>, i: nat)
    requires Reaches(r0, acts0, net) && Reported(net, b)
    ensures IsRun(r, acts) && Swallowed(r, acts, i, b)
    ensures forall j :: i + 1 <= j < |r| ==> Has(r[j], 2, 1, 1) && (2, 1, 1) !in r[j].hop
  {
    var net1;
    i := |acts0|;
    r, acts, net1 := Finishing(r0, acts0, net, b);
    NeverTaken(r, acts, i + 1);
  }

  /** A run of three freshly started nodes in which a report overtakes: origin 1 floods 0 and 1, node 3 has 1,
      node 2 passes 0 on to it and is told 1, and then only acknowledges the advertisement 1 itself. */
  lemma ReportOvertakes() returns (r: seq<Net>, acts: seq<Action>, i: nat, b: Body)
    ensures IsRun(r, acts) && Swallowed(r, acts, i, b)
    ensures forall j :: i + 1 <= j < |r| ==> Has(r[j], 2, 1, 1) && (2, 1, 1) !in r[j].hop
  {
    var r0, acts0, net;
    r0, acts0, net, b := Preparing();
    r, acts, i := Ending(r0, acts0, net, b);
  }
}
