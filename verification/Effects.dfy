/** What the list operations do to the packets a node holds, counted per destination and packet. */
module Effects {
  import opened HashTables
  import opened Types
  import opened Protocol

  ghost predicate Matches(p: Pending, dst: Addr, pk: Packet)
  {
    p.dst == dst && p.packet == pk
  }

  /** How often the packet for this destination stands in the list. */
  ghost function Count(chain: seq<Pending>, dst: Addr, pk: Packet): nat
  {
    if chain == [] then 0
    else Count(chain[..|chain| - 1], dst, pk) + if Matches(chain[|chain| - 1], dst, pk) then 1 else 0
  }

  ghost function PendCount(pend: seq<seq<Pending>>, dst: Addr, pk: Packet): nat
  {
    if pend == [] then 0
    else PendCount(pend[..|pend| - 1], dst, pk) + Count(pend[|pend| - 1], dst, pk)
  }

  /** How often the packet is in the send list or waits for its acknowledgement. */
  ghost function Held(s: Node, dst: Addr, pk: Packet): nat
  {
    Count(s.queue, dst, pk) + PendCount(s.pend, dst, pk)
  }

  lemma CountOne(p: Pending, dst: Addr, pk: Packet)
    ensures Count([p], dst, pk) == if Matches(p, dst, pk) then 1 else 0
  {
    assert [p][..0] == [];
  }

  lemma {:induction false} CountAppend(a: seq<Pending>, b: seq<Pending>, dst: Addr, pk: Packet)
    ensures Count(a + b, dst, pk) == Count(a, dst, pk) + Count(b, dst, pk)
  {
    if b == [] {
      assert a + b == a;
    } else {
      assert (a + b)[..|a + b| - 1] == a + b[..|b| - 1];
      CountAppend(a, b[..|b| - 1], dst, pk);
    }
  }

  lemma {:induction false} CountAt(chain: seq<Pending>, i: nat)
    requires i < |chain|
    ensures Count(chain, chain[i].dst, chain[i].packet) > 0
  {
    if i < |chain| - 1 {
      CountAt(chain[..|chain| - 1], i);
    }
  }

  lemma {:induction false} CountedAt(chain: seq<Pending>, dst: Addr, pk: Packet) returns (i: nat)
    requires Count(chain, dst, pk) > 0
    ensures i < |chain| && Matches(chain[i], dst, pk)
  {
    if Matches(chain[|chain| - 1], dst, pk) {
      i := |chain| - 1;
    } else {
      i := CountedAt(chain[..|chain| - 1], dst, pk);
    }
  }

  lemma {:induction false} PendCountAt(pend: seq<seq<Pending>>, b: nat, dst: Addr, pk: Packet)
    requires b < |pend|
    ensures PendCount(pend, dst, pk) >= Count(pend[b], dst, pk)
  {
    if b < |pend| - 1 {
      PendCountAt(pend[..|pend| - 1], b, dst, pk);
    }
  }

  lemma {:induction false} PendCountedAt(pend: seq<seq<Pending>>, dst: Addr, pk: Packet) returns (b: nat)
    requires PendCount(pend, dst, pk) > 0
    ensures b < |pend| && Count(pend[b], dst, pk) > 0
  {
    if Count(pend[|pend| - 1], dst, pk) > 0 {
      b := |pend| - 1;
    } else {
      b := PendCountedAt(pend[..|pend| - 1], dst, pk);
    }
  }

  lemma {:induction false} PendCountUpdate(pend: seq<seq<Pending>>, b: nat, chain: seq<Pending>, dst: Addr, pk: Packet)
    requires b < |pend|
    ensures PendCount(pend[b := chain], dst, pk) ==
      PendCount(pend, dst, pk) - Count(pend[b], dst, pk) + Count(chain, dst, pk)
  {
    var last := |pend| - 1;
    if b < last {
      assert pend[b := chain][..last] == pend[..last][b := chain];
      PendCountUpdate(pend[..last], b, chain, dst, pk);
    } else {
      assert pend[b := chain][..last] == pend[..last];
    }
  }

  /** The number of flood targets with this address. */
  ghost function Targets(nbs: seq<Entry<nat, Neighbour>>, self: nat, origin: nat, except: Option<Addr>, dst: Addr): nat
  {
    if nbs == [] then 0
    else
      var nb := nbs[|nbs| - 1];
      Targets(nbs[..|nbs| - 1], self, origin, except, dst)
      + if Target(nb, self, origin, except) && nb.val.Address() == dst then 1 else 0
  }

  /** Exactly the targets get exactly this advertisement. */
  lemma {:induction false} FloodAdsCount(nbs: seq<Entry<nat, Neighbour>>, self: nat, origin: nat, except: Option<Addr>,
                                         lsa: Lsa, retran: int, dst: Addr, pk: Packet)
    ensures Count(FloodAds(nbs, self, origin, except, lsa, retran), dst, pk) ==
      if pk == Ad(lsa.ttl, origin, lsa.seqNum, lsa.body) then Targets(nbs, self, origin, except, dst) else 0
  {
    if nbs != [] {
      var nb, rest := nbs[|nbs| - 1], nbs[..|nbs| - 1];
      FloodAdsCount(rest, self, origin, except, lsa, retran, dst, pk);
      var p := AdFor(origin, lsa, nb.val.Address(), retran);
      CountOne(p, dst, pk);
      CountAppend(if Target(nb, self, origin, except) then [p] else [],
                  FloodAds(rest, self, origin, except, lsa, retran), dst, pk);
    }
  }

  /** With distinct addresses an address is a target at most once. */
  lemma {:induction false} TargetsOnce(nbs: seq<Entry<nat, Neighbour>>, self: nat, origin: nat, except: Option<Addr>,
          dst: Addr)
    requires forall i, j :: 0 <= i < j < |nbs| ==> nbs[i].val.Address() != nbs[j].val.Address()
    ensures Targets(nbs, self, origin, except, dst) == 1 <==> except != Some(dst) && exists i ::
      && 0 <= i < |nbs| && nbs[i].val.valid && nbs[i].key != self && nbs[i].key != origin
      && nbs[i].val.Address() == dst
    ensures Targets(nbs, self, origin, except, dst) <= 1
  {
    if nbs != [] {
      TargetsOnce(nbs[..|nbs| - 1], self, origin, except, dst);
    }
  }

  /** An overdue entry moves to the send list, every other one stays; none is lost or doubled. */
  lemma {:induction false} WaitingOrOverdue(chain: seq<Pending>, elapsed: int, retran: int, dst: Addr, pk: Packet)
    ensures Count(chain, dst, pk) ==
      Count(Waiting(chain, elapsed), dst, pk) + Count(Overdue(chain, elapsed, retran), dst, pk)
  {
    if chain != [] {
      var p, rest := chain[|chain| - 1], chain[..|chain| - 1];
      WaitingOrOverdue(rest, elapsed, retran, dst, pk);
      var stay, go := p.(timeLeft := p.timeLeft - elapsed), p.(timeLeft := retran);
      CountOne(stay, dst, pk);
      CountOne(go, dst, pk);
      CountAppend(Waiting(rest, elapsed), if p.timeLeft - elapsed < 0 then [] else [stay], dst, pk);
      CountAppend(if p.timeLeft - elapsed < 0 then [go] else [], Overdue(rest, elapsed, retran), dst, pk);
    }
  }

  lemma {:induction false} AllWaitingOrOverdue(pend: seq<seq<Pending>>, waiting: seq<seq<Pending>>, elapsed: int,
          retran: int, dst: Addr, pk: Packet)
    requires |waiting| == |pend| && forall b :: 0 <= b < |pend| ==> waiting[b] == Waiting(pend[b], elapsed)
    ensures PendCount(pend, dst, pk) == PendCount(waiting, dst, pk) + Count(AllOverdue(pend, elapsed, retran), dst, pk)
  {
    if pend != [] {
      var last := |pend| - 1;
      AllWaitingOrOverdue(pend[..last], waiting[..last], elapsed, retran, dst, pk);
      WaitingOrOverdue(pend[last], elapsed, retran, dst, pk);
      CountAppend(Overdue(pend[last], elapsed, retran), AllOverdue(pend[..last], elapsed, retran), dst, pk);
    }
  }

  lemma RetransmitKeeps(s: Node, elapsed: int, dst: Addr, pk: Packet)
    ensures Held(Retransmit(s, elapsed), dst, pk) == Held(s, dst, pk)
    ensures PendCount(Retransmit(s, elapsed).pend, dst, pk) <= PendCount(s.pend, dst, pk)
  {
    var s' := Retransmit(s, elapsed);
    AllWaitingOrOverdue(s.pend, s'.pend, elapsed, s.timers.retran, dst, pk);
    CountAppend(AllOverdue(s.pend, elapsed, s.timers.retran), s.queue, dst, pk);
  }

  lemma {:induction false} NotToCount(chain: seq<Pending>, addrs: set<Addr>, dst: Addr, pk: Packet)
    ensures Count(NotTo(chain, addrs), dst, pk) == if dst in addrs then 0 else Count(chain, dst, pk)
  {
    if chain != [] {
      var p, rest := chain[|chain| - 1], chain[..|chain| - 1];
      NotToCount(rest, addrs, dst, pk);
      CountOne(p, dst, pk);
      CountAppend(NotTo(rest, addrs), if p.dst in addrs then [] else [p], dst, pk);
    }
  }

  lemma {:induction false} AllNotToCount(pend: seq<seq<Pending>>, kept: seq<seq<Pending>>, addrs: set<Addr>,
          dst: Addr, pk: Packet)
    requires |kept| == |pend| && forall b :: 0 <= b < |pend| ==> kept[b] == NotTo(pend[b], addrs)
    ensures PendCount(kept, dst, pk) == if dst in addrs then 0 else PendCount(pend, dst, pk)
  {
    if pend != [] {
      var last := |pend| - 1;
      AllNotToCount(pend[..last], kept[..last], addrs, dst, pk);
      NotToCount(pend[last], addrs, dst, pk);
    }
  }

  lemma {:induction false} PendAllCount(pend: seq<seq<Pending>>, queue: seq<Pending>, dst: Addr, pk: Packet)
    requires |pend| == PEND_ACK_BUCKET_SIZE
    ensures PendCount(PendAll(pend, queue), dst, pk) ==
      PendCount(pend, dst, pk) + if pk.Ad? then Count(queue, dst, pk) else 0
  {
    if queue != [] {
      var p, rest := queue[|queue| - 1], queue[..|queue| - 1];
      PendAllCount(pend, rest, dst, pk);
      if p.packet.Ad? {
        var before, b := PendAll(pend, rest), p.packet.origin % PEND_ACK_BUCKET_SIZE;
        PendCountUpdate(before, b, [p] + before[b], dst, pk);
        CountOne(p, dst, pk);
        CountAppend([p], before[b], dst, pk);
      }
    }
  }

  /** The entry that remove_pd_ack takes out, if any. */
  ghost function Removed(pend: seq<seq<Pending>>, origin: nat, seqNum: nat, from: Addr): Option<Pending>
    requires |pend| == PEND_ACK_BUCKET_SIZE
  {
    var chain := pend[origin % PEND_ACK_BUCKET_SIZE];
    var i := FirstExact(chain, FirstFrom(chain, 0, origin), seqNum, from);
    if i < |chain| then Some(chain[i]) else None
  }

  lemma RemoveAckCount(pend: seq<seq<Pending>>, origin: nat, seqNum: nat, from: Addr, dst: Addr, pk: Packet)
    requires |pend| == PEND_ACK_BUCKET_SIZE
    ensures var gone := Removed(pend, origin, seqNum, from);
      PendCount(RemoveAck(pend, origin, seqNum, from), dst, pk)
      == PendCount(pend, dst, pk) - if gone.Some? && Matches(gone.value, dst, pk) then 1 else 0
  {
    var b := origin % PEND_ACK_BUCKET_SIZE;
    var chain := pend[b];
    var i := FirstExact(chain, FirstFrom(chain, 0, origin), seqNum, from);
    PendCountUpdate(pend, b, Without(chain, i), dst, pk);
    if i < |chain| {
      assert chain == chain[..i] + ([chain[i]] + chain[i + 1..]);
      CountAppend(chain[..i], chain[i + 1..], dst, pk);
      CountAppend(chain[..i], [chain[i]] + chain[i + 1..], dst, pk);
      CountAppend([chain[i]], chain[i + 1..], dst, pk);
      CountOne(chain[i], dst, pk);
    }
  }
}
