/** When exactly a pending advertisement is sent again and a stored LSA expires. */
module Timing {
  import opened HashTables
  import opened Types
  import opened Protocol
  import opened Effects
  import opened Steps
  import opened Flooding
  import opened Reliable

  // ---------------------------------------------------------------- runs of one node

  /** The states of one node while it handles `evs`, whose ticks are all `t` apart. */
  ghost predicate Trace(st: seq<Node>, evs: seq<Event>, t: int)
  {
    && t > 0 && |st| == |evs| + 1
    && forall i {:trigger TraceAt(st, evs, t, i)} :: 0 <= i < |evs| ==> TraceAt(st, evs, t, i)
  }

  ghost predicate TraceAt(st: seq<Node>, evs: seq<Event>, t: int, i: nat)
    requires i < |evs| < |st|
  {
    && Enabled(st[i], evs[i]) && st[i + 1] == Step(st[i], evs[i])
    && (evs[i].Tick? ==> evs[i].elapsed == t)
  }

  ghost function Ticks(evs: seq<Event>, i: nat): nat
    requires i <= |evs|
  {
    if i == 0 then 0 else Ticks(evs, i - 1) + if evs[i - 1].Tick? then 1 else 0
  }

  lemma NotOver(left: int, t: int, k: nat)
    requires t > 0 && left >= 0
    ensures left - k * t >= 0 <==> k <= left / t
  {
    assert left == t * (left / t) + left % t;
    if k <= left / t {
      assert k * t <= (left / t) * t;
    } else {
      assert (left / t + 1) * t <= k * t;
    }
  }

  /** The time that is left goes down by one interval for each tick. */
  lemma LeftAfter(evs: seq<Event>, i: nat, left: int, t: int)
    requires 0 < i <= |evs| && t > 0 && left >= 0
    ensures left - Ticks(evs, i) * t == left - Ticks(evs, i - 1) * t - if evs[i - 1].Tick? then t else 0
    ensures left - Ticks(evs, i) * t >= 0 <==> Ticks(evs, i) <= left / t
    ensures Ticks(evs, i - 1) <= Ticks(evs, i)
  {
    assert (Ticks(evs, i - 1) + 1) * t == Ticks(evs, i - 1) * t + t;
    NotOver(left, t, Ticks(evs, i));
  }

  // ---------------------------------------------------------------- expiry

  /** Accepting an advertisement restarts the life of its LSA: the neighbour interval or the general one. */
  lemma AcceptRestarts(s: Node, ev: Event)
    requires Enabled(s, ev) && Accepts(s, ev)
    ensures var o := ev.packet.origin;
      && o in Step(s, ev).lsas && Step(s, ev).lsas[o].valid
      && Step(s, ev).lsas[o].timeLeft == if IsNb(s.nbs, o) then s.timers.nb else s.timers.lsa
  {
    var s1 := Revive(Learn(s, ev.packet), ev.packet.origin);
    assert s1.lsas[ev.packet.origin] == Learn(s, ev.packet).lsas[ev.packet.origin];
  }

  lemma LifeStep(s: Node, ev: Event, k: nat)
    requires Enabled(s, ev) && k in s.lsas && k != s.nid
    requires !(Accepts(s, ev) && ev.packet.origin == k)
    ensures k in Step(s, ev).lsas && Step(s, ev).nid == s.nid
    ensures var a, b := s.lsas[k], Step(s, ev).lsas[k];
      if ev.Tick? && a.valid then b.timeLeft == a.timeLeft - ev.elapsed && (b.valid <==> b.timeLeft >= 0)
      else b.timeLeft == a.timeLeft && b.valid == a.valid
  {
    if ev.Tick? {
      assert AfterExpiry(s, ev.elapsed).lsas[k] == Aged(s, ev.elapsed)[k];
    }
  }

  /** With ticks `t` apart, a foreign LSA whose life is `left` is still valid after some events, none of which
      accepts a newer one, exactly if at most left / t of them were ticks. */
  lemma {:induction false} ExpiryExact(st: seq<Node>, evs: seq<Event>, t: int, k: nat, left: int, i: nat)
    requires Trace(st, evs, t) && i <= |evs| && left >= 0
    requires k != st[0].nid && k in st[0].lsas && st[0].lsas[k].valid && st[0].lsas[k].timeLeft == left
    requires forall j :: 0 <= j < i ==> !(Accepts(st[j], evs[j]) && evs[j].packet.origin == k)
    ensures k in st[i].lsas && st[i].nid == st[0].nid
    ensures st[i].lsas[k].valid <==> Ticks(evs, i) <= left / t
    ensures st[i].lsas[k].valid ==> st[i].lsas[k].timeLeft == left - Ticks(evs, i) * t
  {
    if i == 0 {
      NotOver(left, t, 0);
    } else {
      ExpiryExact(st, evs, t, k, left, i - 1);
      assert TraceAt(st, evs, t, i - 1);
      LifeStep(st[i - 1], evs[i - 1], k);
      LeftAfter(evs, i, left, t);
      NotOver(left, t, Ticks(evs, i - 1));
    }
  }

  // ---------------------------------------------------------------- retransmission

  /** The packet waits in the pending table with this much time left. */
  ghost predicate Waits(pend: seq<seq<Pending>>, dst: Addr, pk: Packet, left: int)
  {
    exists b :: 0 <= b < |pend| && Pending(dst, left, pk) in pend[b]
  }

  lemma {:induction false} WaitingHas(chain: seq<Pending>, elapsed: int, p: Pending)
    requires p in chain && p.timeLeft - elapsed >= 0
    ensures p.(timeLeft := p.timeLeft - elapsed) in Waiting(chain, elapsed)
  {
    if chain[|chain| - 1] != p {
      WaitingHas(chain[..|chain| - 1], elapsed, p);
    }
  }

  lemma {:induction false} OverdueHas(chain: seq<Pending>, elapsed: int, retran: int, p: Pending)
    requires p in chain && p.timeLeft - elapsed < 0
    ensures p.(timeLeft := retran) in Overdue(chain, elapsed, retran)
  {
    if chain[|chain| - 1] != p {
      OverdueHas(chain[..|chain| - 1], elapsed, retran, p);
    }
  }

  lemma {:induction false} AllOverdueHas(pend: seq<seq<Pending>>, elapsed: int, retran: int, b: nat, p: Pending)
    requires b < |pend| && p in Overdue(pend[b], elapsed, retran)
    ensures p in AllOverdue(pend, elapsed, retran)
  {
    if b < |pend| - 1 {
      AllOverdueHas(pend[..|pend| - 1], elapsed, retran, b, p);
    }
  }

  lemma {:induction false} NotToHas(chain: seq<Pending>, addrs: set<Addr>, p: Pending)
    requires p in chain && p.dst !in addrs
    ensures p in NotTo(chain, addrs)
  {
    if chain[|chain| - 1] != p {
      NotToHas(chain[..|chain| - 1], addrs, p);
    }
  }

  lemma {:induction false} PendAllHas(pend: seq<seq<Pending>>, queue: seq<Pending>, b: nat, p: Pending)
    requires |pend| == PEND_ACK_BUCKET_SIZE && b < |pend| && p in pend[b]
    ensures p in PendAll(pend, queue)[b]
  {
    if queue != [] {
      PendAllHas(pend, queue[..|queue| - 1], b, p);
    }
  }

  lemma RemoveAckHas(pend: seq<seq<Pending>>, origin: nat, seqNum: nat, from: Addr, b: nat, p: Pending)
    requires |pend| == PEND_ACK_BUCKET_SIZE && b < |pend| && p in pend[b]
    requires Removed(pend, origin, seqNum, from) != Some(p)
    ensures p in RemoveAck(pend, origin, seqNum, from)[b]
  {
    if b == origin % PEND_ACK_BUCKET_SIZE {
      var chain := pend[b];
      var i := FirstExact(chain, FirstFrom(chain, 0, origin), seqNum, from);
      var k :| 0 <= k < |chain| && chain[k] == p;
      if i < |chain| {
        assert k != i;
        var r := Without(chain, i);
        assert k < i ==> r[k] == p;
        assert k > i ==> r[k - 1] == p;
      }
    }
  }

  /** An answer to something else leaves a waiting entry where it is. */
  lemma AnswerWaits(pend: seq<seq<Pending>>, origin: nat, seqNum: nat, from: Addr, b: nat, p: Pending)
    requires PendShape(pend) && b < |pend| && p in pend[b]
    requires !(from == p.dst && p.packet.seqNum == seqNum
               && p.packet.origin % PEND_ACK_BUCKET_SIZE == origin % PEND_ACK_BUCKET_SIZE)
    ensures p in RemoveAck(pend, origin, seqNum, from)[b]
  {
    if Removed(pend, origin, seqNum, from) == Some(p) { RemovedAnswers(pend, origin, seqNum, from); }
    RemoveAckHas(pend, origin, seqNum, from, b, p);
  }

  /** Any event but a tick leaves it where it is. */
  lemma StaysPending(s: Node, ev: Event, b: nat, p: Pending)
    requires Enabled(s, ev) && PendShape(s.pend) && b < |s.pend| && p in s.pend[b]
    requires !Answers(ev, p.dst, p.packet) && !ev.Tick?
    ensures b < |Step(s, ev).pend| && p in Step(s, ev).pend[b]
  {
    match ev
    case Deliver(Ack(origin, seqNum), from) => AnswerWaits(s.pend, origin, seqNum, from, b, p);
    case Deliver(Seq(origin, seqNum), from) =>
      SeqLists(s, ev);
      AnswerWaits(s.pend, origin, 0, from, b, p);
    case Deliver(Ad(_, _, _, _), _) => AdPend(s, ev);
    case SendAll => PendAllHas(s.pend, s.queue, b, p);
    case AddFile(_, _) => AdPend(s, ev);
    case Tick(_) =>
  }

  /** Only a tick moves a waiting entry on; it goes to the send list exactly when its time runs out. */
  lemma WaitsStep(s: Node, ev: Event, dst: Addr, pk: Packet, left: int)
    requires Enabled(s, ev) && PendShape(s.pend) && Waits(s.pend, dst, pk, left)
    requires !Answers(ev, dst, pk) && !Downs(s, ev, dst)
    ensures !ev.Tick? ==> Waits(Step(s, ev).pend, dst, pk, left)
    ensures ev.Tick? && left - ev.elapsed >= 0 ==> Waits(Step(s, ev).pend, dst, pk, left - ev.elapsed)
    ensures ev.Tick? && left - ev.elapsed < 0 ==> Pending(dst, s.timers.retran, pk) in Step(s, ev).queue
  {
    var p := Pending(dst, left, pk);
    var b :| 0 <= b < |s.pend| && p in s.pend[b];
    if ev.Tick? {
      TickWaits(s, ev, b, p);
    } else {
      StaysPending(s, ev, b, p);
    }
  }

  lemma RetransmitWaits(s: Node, elapsed: int, b: nat, p: Pending)
    requires b < |s.pend| && p in s.pend[b]
    ensures p.timeLeft - elapsed >= 0 ==> p.(timeLeft := p.timeLeft - elapsed) in Retransmit(s, elapsed).pend[b]
    ensures p.timeLeft - elapsed < 0 ==> p.(timeLeft := s.timers.retran) in Retransmit(s, elapsed).queue
  {
    if p.timeLeft - elapsed >= 0 {
      WaitingHas(s.pend[b], elapsed, p);
    } else {
      OverdueHas(s.pend[b], elapsed, s.timers.retran, p);
      AllOverdueHas(s.pend, elapsed, s.timers.retran, b, p.(timeLeft := s.timers.retran));
    }
  }

  lemma TickWaits(s: Node, ev: Event, b: nat, p: Pending)
    requires Enabled(s, ev) && ev.Tick? && !Downs(s, ev, p.dst) && b < |s.pend| && p in s.pend[b]
    ensures b < |Step(s, ev).pend|
    ensures p.timeLeft - ev.elapsed >= 0 ==> p.(timeLeft := p.timeLeft - ev.elapsed) in Step(s, ev).pend[b]
    ensures p.timeLeft - ev.elapsed < 0 ==> p.(timeLeft := s.timers.retran) in Step(s, ev).queue
  {
    NotToHas(s.pend[b], AddrsOf(s.nbs, Expired(s, ev.elapsed)), p);
    var s2 := AfterExpiry(s, ev.elapsed);
    var s3 := if FloodOf(s, ev).Some? then Advertise(s2) else s2;
    assert p in s3.pend[b] && s3.timers == s.timers;
    RetransmitWaits(s3, ev.elapsed, b, p);
  }

  /** Event j neither answers the packet nor takes the neighbour down that it is for. */
  ghost predicate Undisturbed(st: seq<Node>, evs: seq<Event>, dst: Addr, pk: Packet, j: nat)
    requires j < |evs| < |st|
  {
    !Answers(evs[j], dst, pk) && !Downs(st[j], evs[j], dst)
  }

  /** One event of such a wait. */
  lemma WaitsOn(s: Node, ev: Event, t: int, dst: Addr, pk: Packet, left: int)
    requires Enabled(s, ev) && PendShape(s.pend) && Waits(s.pend, dst, pk, left) && (ev.Tick? ==> ev.elapsed == t)
    requires !Answers(ev, dst, pk) && !Downs(s, ev, dst) && left - (if ev.Tick? then t else 0) >= 0
    ensures PendShape(Step(s, ev).pend) && Step(s, ev).timers == s.timers
    ensures Waits(Step(s, ev).pend, dst, pk, left - if ev.Tick? then t else 0)
  {
    StepShape(s, ev);
    Frame(s, ev);
    WaitsStep(s, ev, dst, pk, left);
  }

  /** With ticks `t` apart, an entry with `left` to go that nobody answers waits through left / t ticks. */
  lemma {:induction false} WaitsThrough(st: seq<Node>, evs: seq<Event>, t: int, dst: Addr, pk: Packet,
          left: int, i: nat)
    requires Trace(st, evs, t) && i <= |evs| && left >= 0
    requires PendShape(st[0].pend) && Waits(st[0].pend, dst, pk, left)
    requires forall j :: 0 <= j < i ==> Undisturbed(st, evs, dst, pk, j)
    requires Ticks(evs, i) <= left / t
    ensures PendShape(st[i].pend) && st[i].timers == st[0].timers
    ensures Waits(st[i].pend, dst, pk, left - Ticks(evs, i) * t)
  {
    if i > 0 {
      LeftAfter(evs, i, left, t);
      WaitsThrough(st, evs, t, dst, pk, left, i - 1);
      assert TraceAt(st, evs, t, i - 1) && Undisturbed(st, evs, dst, pk, i - 1);
      WaitsOn(st[i - 1], evs[i - 1], t, dst, pk, left - Ticks(evs, i - 1) * t);
    }
  }

  lemma NowOver(left: int, t: int, k: nat)
    requires t > 0 && left >= 0 && k == left / t
    ensures left - k * t - t < 0
  {
    NotOver(left, t, k + 1);
    assert (k + 1) * t == k * t + t;
  }

  /** ... and the next tick, number left / t + 1, puts it back into the send list. */
  lemma RetransmitExact(st: seq<Node>, evs: seq<Event>, t: int, dst: Addr, pk: Packet, left: int, i: nat)
    requires Trace(st, evs, t) && i < |evs| && left >= 0
    requires PendShape(st[0].pend) && Waits(st[0].pend, dst, pk, left)
    requires forall j :: 0 <= j <= i ==> Undisturbed(st, evs, dst, pk, j)
    requires Ticks(evs, i) == left / t && evs[i].Tick?
    ensures Pending(dst, st[0].timers.retran, pk) in st[i + 1].queue
  {
    WaitsThrough(st, evs, t, dst, pk, left, i);
    assert TraceAt(st, evs, t, i) && Undisturbed(st, evs, dst, pk, i);
    NowOver(left, t, Ticks(evs, i));
    WaitsStep(st[i], evs[i], dst, pk, left - Ticks(evs, i) * t);
  }
}
