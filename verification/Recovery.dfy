/** Sequence reports: how a restarted origin catches up, and how a report can make a node skip an instance. */
module Recovery {
  import opened HashTables
  import opened Types
  import opened Protocol
  import opened Effects
  import opened Steps
  import opened Network
  import opened Flooding
  import opened Reliable
  import opened Timing
  import opened Accounts

  // ---------------------------------------------------------------- the restarted origin

  ghost predicate OwnLsaFresh(s: Node)
  {
    s.nid in s.lsas && s.lsas[s.nid].ttl == LSA_MAX_TTL
  }

  lemma {:induction false} OwnNumberGrows(st: seq<Node>, evs: seq<Event>, t: int, i: nat, j: nat)
    requires Trace(st, evs, t) && i <= j <= |evs| && OwnLsaFresh(st[i])
    ensures OwnLsaFresh(st[j]) && st[j].nid == st[i].nid
    ensures st[i].lsas[st[i].nid].seqNum <= st[j].lsas[st[i].nid].seqNum
    decreases j
  {
    if i < j {
      OwnNumberGrows(st, evs, t, i, j - 1);
      assert TraceAt(st, evs, t, j - 1);
      OwnNumber(st[j - 1], evs[j - 1]);
      Frame(st[j - 1], evs[j - 1]);
    }
  }

  /** A report of n makes the origin flood exactly when its next number is not above n yet; the flood then uses
      n + 1 and is held for every live neighbour. Whatever arrives later, in whatever order and however often,
      the next number stays above n. */
  lemma RestartRecovery(st: seq<Node>, evs: seq<Event>, t: int, i: nat, n: nat, from: Addr, j: nat)
    requires Trace(st, evs, t) && i < j <= |evs| && OwnLsaFresh(st[i])
    requires evs[i] == Deliver(Seq(st[i].nid, n), from)
    ensures var s := st[i];
      && Enabled(s, evs[i])
      && (FloodsOwn(s, evs[i]) <==> s.lsas[s.nid].seqNum <= n)
      && (FloodsOwn(s, evs[i]) ==>
            && FloodOf(s, evs[i]).value.lsa.seqNum == n + 1
            && forall k :: 0 <= k < |s.nbs| && s.nbs[k].val.valid && s.nbs[k].key != s.nid ==>
                 Held(st[i + 1], s.nbs[k].val.Address(), FloodOf(s, evs[i]).value.Packet()) > 0)
    ensures st[j].nid == st[i].nid && st[i].nid in st[j].lsas && n < st[j].lsas[st[i].nid].seqNum
  {
    assert TraceAt(st, evs, t, i);
    var s := st[i];
    OwnNumber(s, evs[i]);
    Frame(s, evs[i]);
    if FloodsOwn(s, evs[i]) {
      forall k | 0 <= k < |s.nbs| && s.nbs[k].val.valid && s.nbs[k].key != s.nid
        ensures Held(st[i + 1], s.nbs[k].val.Address(), FloodOf(s, evs[i]).value.Packet()) > 0
      {
        FloodHolds(s, evs[i], k);
      }
    }
    OwnNumberGrows(st, evs, t, i + 1, j);
  }

  /** A peer that stores n for the origin takes exactly the advertisements numbered above n. */
  lemma PeerAccepts(p: Node, ad: Packet, from: Addr)
    requires ad.Ad? && ad.origin != p.nid && ad.origin in p.lsas
    ensures Accepts(p, Deliver(ad, from)) <==> p.lsas[ad.origin].seqNum < ad.seqNum
  {
  }

  /** A restarted origin and a peer that still stores number n > 0 for it: the origin's advertisement 0 is answered by
      a report of n and changes nothing else at the peer; the report makes the origin flood number n + 1 to all that
      are up; and the peer stores that one, on whatever way it comes. */
  lemma RestartHeals(p: Node, ad: Packet, from: Addr, s: Node, at: Addr, ttl: int, via: Addr)
    requires Enabled(p, Deliver(ad, from)) && ad.Ad? && ad.origin == s.nid != p.nid && ad.seqNum == 0
    requires s.nid in p.lsas && p.lsas[s.nid].seqNum > 0
    requires Enabled(s, Deliver(Seq(s.nid, p.lsas[s.nid].seqNum), at)) && s.lsas[s.nid].ttl == 32
    requires s.lsas[s.nid].seqNum <= p.lsas[s.nid].seqNum
    ensures var o, n, p' := s.nid, p.lsas[s.nid].seqNum, Step(p, Deliver(ad, from));
      && p' == p.(queue := [Pending(from, 0, Seq(o, n))] + p.queue)
      && var s', body := Step(s, Deliver(Seq(o, n), at)), s.lsas[o].body;
      && s'.lsas[o].seqNum == n + 2
      && (forall i :: 0 <= i < |s.nbs| && s.nbs[i].val.valid && s.nbs[i].key != o ==>
        Count(s'.queue, s.nbs[i].val.Address(), Ad(32, o, n + 1, body)) > 0)
      && var ev := Deliver(Ad(ttl, o, n + 1, body), via);
      && Enabled(p', ev) && o in Step(p', ev).lsas && Step(p', ev).lsas[o].seqNum == n + 1
      && Step(p', ev).lsas[o].body == body && Step(p', ev).lsas[o].valid
  {
    var o, n := s.nid, p.lsas[s.nid].seqNum;
    var report := Deliver(Seq(o, n), at);
    var ads := AdLists(p, Deliver(ad, from));
    OldAdAccount(p, Deliver(ad, from));
    assert [Pending(from, 0, Seq(o, n))] + [] + p.queue == [Pending(from, 0, Seq(o, n))] + p.queue;
    var flood := OwnSeqAccount(s, report);
    forall i | 0 <= i < |s.nbs| && s.nbs[i].val.valid && s.nbs[i].key != o
      ensures Count(Step(s, report).queue, s.nbs[i].val.Address(), Ad(32, o, n + 1, s.lsas[o].body)) > 0
    {
      FloodedHas(flood, s.nbs, o, o, None, s.timers.retran, Ad(32, o, n + 1, s.lsas[o].body), i);
      CountAppend(flood, s.queue, s.nbs[i].val.Address(), Ad(32, o, n + 1, s.lsas[o].body));
    }
    NewAdAccount(Step(p, Deliver(ad, from)), Deliver(Ad(ttl, o, n + 1, s.lsas[o].body), via));
  }

  /** Once the origin's next number is above the n that a peer reported, the peer takes the origin's last flood
      exactly if the next number is not n + 1. */
  lemma LastFloodTaken(s: Node, p: Node, last: Packet, from: Addr)
    requires s.nid in s.lsas && s.nid in p.lsas && p.nid != s.nid && p.lsas[s.nid].seqNum < s.lsas[s.nid].seqNum
    requires last.Ad? && last.origin == s.nid && last.seqNum == s.lsas[s.nid].seqNum - 1
    ensures Accepts(p, Deliver(last, from)) <==> s.lsas[s.nid].seqNum != p.lsas[s.nid].seqNum + 1
  {
    PeerAccepts(p, last, from);
  }

  /** The other case occurs: peers of a restarted origin report 1 and then 2. The first report causes a flood
      numbered 2, the second one none, and the second peer ignores the flood numbered 2. */
  lemma StalePeer(s: Node, a: Addr, b: Addr, p: Node, body: Body)
    requires s.nid in s.lsas && s.lsas[s.nid].seqNum == 1 && |s.pend| == PEND_ACK_BUCKET_SIZE
    requires p.nid != s.nid && s.nid in p.lsas && p.lsas[s.nid].seqNum == 2
    ensures var s1 := Step(s, Deliver(Seq(s.nid, 1), a));
      && s1.nid in s1.lsas && s1.lsas[s1.nid].seqNum == 3
      && Enabled(s1, Deliver(Seq(s.nid, 2), b)) && FloodOf(s1, Deliver(Seq(s.nid, 2), b)) == None
      && FloodOf(s, Deliver(Seq(s.nid, 1), a)).Some? && FloodOf(s, Deliver(Seq(s.nid, 1), a)).value.lsa.seqNum == 2
    ensures !Accepts(p, Deliver(Ad(LSA_MAX_TTL, s.nid, 2, body), b))
  {
  }

  /** An advertisement, in particular the one numbered 0 after a restart, stays queued or pending through any
      events that neither answer it nor take the neighbour down that it is for. */
  lemma {:induction false} HeldThrough(st: seq<Node>, evs: seq<Event>, t: int, dst: Addr, pk: Packet, i: nat)
    requires Trace(st, evs, t) && i <= |evs| && PendShape(st[0].pend)
    requires pk.Ad? && Held(st[0], dst, pk) > 0
    requires forall j :: 0 <= j < i ==> Undisturbed(st, evs, dst, pk, j)
    ensures PendShape(st[i].pend) && Held(st[i], dst, pk) > 0
  {
    if i > 0 {
      HeldThrough(st, evs, t, dst, pk, i - 1);
      assert TraceAt(st, evs, t, i - 1) && Undisturbed(st, evs, dst, pk, i - 1);
      StepShape(st[i - 1], evs[i - 1]);
      Persists(st[i - 1], evs[i - 1], dst, pk);
    }
  }

  // ---------------------------------------------------------------- the overtaken node

  /** After a report has overtaken what a node accepted, the node only acknowledges the advertisements up to the
      reported number: it neither stores nor floods them. */
  lemma OvertakenSwallows(s: Node, report: Event, ad: Packet, from: Addr)
    requires Enabled(s, report) && Overtakes(s, report)
    requires ad.Ad? && ad.origin == report.packet.origin && 0 < ad.seqNum <= report.packet.seqNum
    ensures var s1 := Step(s, report); var ev := Deliver(ad, from);
      && Enabled(s1, ev) && FloodOf(s1, ev) == None
      && Step(s1, ev) == s1.(queue := [Pending(from, 0, Ack(ad.origin, ad.seqNum))] + s1.queue)
      && s1.lsas[ad.origin].body == s.lsas[ad.origin].body
  {
  }

  /** The stored foreign numbers stay accepted ones exactly if the report does not overtake. */
  lemma TakenExact(net: Net, a: Action)
    requires Inv(net) && Possible(net, a) && Taken(net, a.node) && a.ev.Deliver? && a.ev.packet.Seq?
    ensures a.node in Next(net, a).nodes && (Taken(Next(net, a), a.node) <==> !Overtakes(net.nodes[a.node], a.ev))
  {
    var mv := MoveOf(net, a);
    NextIsMove(net, a);
    MoveGrows(mv);
    assert NodeOk(net, a.node);
    if Overtakes(net.nodes[a.node], a.ev) {
      OvertakenHop(net, a);
    } else {
      MoveTaken(mv, a.node);
    }
  }

  lemma OvertakenHop(net: Net, a: Action)
    requires Inv(net) && Possible(net, a) && NodeOk(net, a.node) && Overtakes(net.nodes[a.node], a.ev)
    ensures !Taken(Next(net, a), a.node)
  {
    OvertakenSkips(net, a);
  }

  /** The node has the reported number then, but has not accepted it. */
  lemma OvertakenSkips(net: Net, a: Action)
    requires Inv(net) && Possible(net, a) && Overtakes(net.nodes[a.node], a.ev)
    ensures var o, q := a.ev.packet.origin, a.ev.packet.seqNum;
      && a.node in Next(net, a).nodes && o in Next(net, a).nodes[a.node].lsas && o != a.node
      && Next(net, a).nodes[a.node].lsas[o].seqNum == q && (a.node, o, q) !in Next(net, a).hop
  {
    assert NodeOk(net, a.node);
    var o, q := a.ev.packet.origin, a.ev.packet.seqNum;
    assert !Has(net, a.node, o, q);
    assert FloodOf(net.nodes[a.node], a.ev) == None;
  }

  /** An instance that a node has skipped is never accepted by it in the rest of the run. */
  lemma {:induction false} SkippedForGood(r: seq<Net>, acts: seq<Action>, i: nat, j: nat, n: nat, o: nat, q: nat)
    requires IsRun(r, acts) && i <= j < |r|
    requires Has(r[i], n, o, q) && (n, o, q) !in r[i].hop
    ensures Has(r[j], n, o, q) && (n, o, q) !in r[j].hop
    decreases j
  {
    if i < j {
      SkippedForGood(r, acts, i, j - 1, n, o, q);
      SkippedStep(r, acts, j - 1, n, o, q);
    }
  }

  lemma SkippedStep(r: seq<Net>, acts: seq<Action>, i: nat, n: nat, o: nat, q: nat)
    requires IsRun(r, acts) && i < |acts|
    requires Has(r[i], n, o, q) && (n, o, q) !in r[i].hop
    ensures Has(r[i + 1], n, o, q) && (n, o, q) !in r[i + 1].hop
  {
    RunInv(r, acts, i, i + 1);
    assert StepAt(r, acts, i);
    NextIsMove(r[i], acts[i]);
    var mv := MoveOf(r[i], acts[i]);
    assert mv.net' == r[i + 1];
  }

  // ---------------------------------------------------------------- the acknowledged stranger

  /** From the first entry of o on, an entry of another origin stands only behind one of o with the same number and
      address. */
  ghost predicate NoStranger(chain: seq<Pending>, o: nat)
  {
    forall k :: FirstFrom(chain, 0, o) <= k < |chain| && chain[k].packet.origin != o ==>
      exists j :: FirstFrom(chain, 0, o) <= j < k && Twin(chain[j], chain[k], o)
  }

  ghost predicate Twin(p: Pending, q: Pending, o: nat)
  {
    p.packet.origin == o && p.packet.seqNum == q.packet.seqNum && p.dst == q.dst
  }

  /** Acknowledgements for o, whatever they say, take away entries of o only, if and only if the bucket of o has no
      such stranger. */
  lemma AckExact(pend: seq<seq<Pending>>, o: nat)
    requires PendShape(pend)
    ensures NoStranger(pend[o % PEND_ACK_BUCKET_SIZE], o) <==>
      forall seqNum, from :: Removed(pend, o, seqNum, from).Some? ==>
        Removed(pend, o, seqNum, from).value.packet.origin == o
  {
    var chain := pend[o % PEND_ACK_BUCKET_SIZE];
    if k :| FirstFrom(chain, 0, o) <= k < |chain| && chain[k].packet.origin != o
            && forall j :: FirstFrom(chain, 0, o) <= j < k ==> !Twin(chain[j], chain[k], o) {
      var first := FirstExact(chain, FirstFrom(chain, 0, o), chain[k].packet.seqNum, chain[k].dst);
      assert Removed(pend, o, chain[k].packet.seqNum, chain[k].dst) == Some(chain[first]);
      assert !Twin(chain[first], chain[k], o);
    }
  }

  /** Without strangers, the acknowledgement of a pending entry takes away an entry with just its origin, number and
      address. */
  lemma AckRemoves(pend: seq<seq<Pending>>, o: nat, b: nat, i: nat)
    requires PendShape(pend) && NoStranger(pend[o % PEND_ACK_BUCKET_SIZE], o)
    requires b < |pend| && i < |pend[b]| && pend[b][i].packet.origin == o
    ensures var gone := Removed(pend, o, pend[b][i].packet.seqNum, pend[b][i].dst);
      gone.Some? && Twin(gone.value, pend[b][i], o)
  {
    AckExact(pend, o);
    assert b == o % PEND_ACK_BUCKET_SIZE;
  }

  /** Distinct remainders leave no room for strangers. */
  lemma DistinctNoStranger(pend: seq<seq<Pending>>, o: nat)
    requires PendShape(pend)
    requires forall b, i :: 0 <= b < |pend| && 0 <= i < |pend[b]|
               && pend[b][i].packet.origin % PEND_ACK_BUCKET_SIZE == o % PEND_ACK_BUCKET_SIZE
               ==> pend[b][i].packet.origin == o
    ensures NoStranger(pend[o % PEND_ACK_BUCKET_SIZE], o)
  {
  }

  /** There can be one: the duplicate acknowledgement of (1, 7) takes the advertisement (51, 7) away. */
  lemma AckTakesStranger(at: Addr, body: Body)
    ensures var own, other := Pending(at, 3, Ad(9, 1, 8, body)), Pending(at, 3, Ad(9, 51, 7, body));
      Removed(seq(PEND_ACK_BUCKET_SIZE, b => if b == 1 then [own, other] else []), 1, 7, at) == Some(other)
  {
    var own, other := Pending(at, 3, Ad(9, 1, 8, body)), Pending(at, 3, Ad(9, 51, 7, body));
    var pend := seq(PEND_ACK_BUCKET_SIZE, b => if b == 1 then [own, other] else []);
    assert pend[1] == [own, other];
    assert FirstFrom(pend[1], 0, 1) == 0;
    assert FirstExact(pend[1], 1, 7, at) == 1;
  }
}
