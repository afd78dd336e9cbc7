/** The intervals of one node: when it floods its own LSA by itself, and when it sends an advertisement again
    (src/sel_timeout.c:37-124, 126-174, src/lsa.c:299). */
module Intervals {
  import opened HashTables
  import opened Types
  import opened Protocol
  import opened Effects
  import opened Steps
  import opened Accounts
  import opened Flooding
  import opened Timing

  // ---------------------------------------------------------------- the advertisement timer

  /** The node has another reason than its timer to flood its own LSA: it is told that its number is not above a stored
      one, it gets a new file, or a neighbour has gone down. */
  ghost predicate Prompted(s: Node, ev: Event)
    requires Enabled(s, ev)
  {
    match ev
    case Deliver(Seq(o, n), _) => o == s.nid && s.lsas[o].seqNum <= n
    case AddFile(name, _) => name !in s.files
    case Tick(elapsed) => NbDies(s, elapsed)
    case _ => false
  }

  ghost function OwnNumberOf(s: Node): nat
    requires s.nid in s.lsas
  {
    s.lsas[s.nid].seqNum
  }

  /** Own number and timer under one event: the number moves, and the timer starts again, exactly if there is such a
      reason or the timer has run out; otherwise the timer goes down with every tick. */
  lemma AdvStep(s: Node, ev: Event)
    requires Enabled(s, ev)
    ensures var s' := Step(s, ev);
      && s'.nid == s.nid && s'.timers == s.timers && s.nid in s'.lsas
      && if Prompted(s, ev) || (ev.Tick? && s.advLeft < ev.elapsed) then
           OwnNumberOf(s') > OwnNumberOf(s) && s'.advLeft == s.timers.adv
         else OwnNumberOf(s') == OwnNumberOf(s) && s'.advLeft == s.advLeft - if ev.Tick? then ev.elapsed else 0
    ensures ev.Tick? && (NbDies(s, ev.elapsed) || s.advLeft < ev.elapsed) ==>
      OwnNumberOf(Step(s, ev)) == OwnNumberOf(s) + 1
  {
    match ev
    case Tick(_) => TickTables(s, ev); TickOwnLsa(s, ev);
    case AddFile(_, _) => var ads := FileAccount(s, ev);
    case SendAll => SendAccount(s, ev, 0);
    case Deliver(Ack(_, _), _) => AckAccount(s, ev);
    case Deliver(Ad(_, _, _, _), _) => AdvAd(s, ev);
    case Deliver(Seq(o, _), _) =>
      if o == s.nid {
        var ads := OwnSeqAccount(s, ev);
      } else {
        SeqAccount(s, ev);
      }
  }

  lemma AdvAd(s: Node, ev: Event)
    requires Enabled(s, ev) && ev.Deliver? && ev.packet.Ad?
    ensures var s' := Step(s, ev);
      && s'.nid == s.nid && s'.timers == s.timers && s.nid in s'.lsas && s'.advLeft == s.advLeft
      && OwnNumberOf(s') == OwnNumberOf(s)
  {
    Frame(s, ev);
    if ev.packet.origin == s.nid {
      OwnAdAccount(s, ev);
    } else {
      var ads := AdLists(s, ev);
      if Above(s, ev.packet.origin, ev.packet.seqNum) {
        NewAdAccount(s, ev);
      } else {
        OldAdAccount(s, ev);
      }
    }
  }

  /** Event j gives no such reason. */
  ghost predicate Unprompted(st: seq<Node>, evs: seq<Event>, j: nat)
    requires j < |evs| < |st|
  {
    Enabled(st[j], evs[j]) && !Prompted(st[j], evs[j])
  }

  /** The next tick is the first one that the timer does not cover. */
  lemma Rounds(left: int, t: int, k: nat)
    requires t > 0 && left >= 0 && k <= left / t
    ensures left - k * t >= 0 && (left - k * t < t <==> k == left / t)
  {
    NotOver(left, t, k);
    NotOver(left, t, k + 1);
    assert (k + 1) * t == k * t + t;
  }

  /** With ticks t apart and a timer that starts at `left`, the own LSA is not flooded before tick number left / t + 1,
      and is flooded by that one. */
  lemma {:induction false} AdvertisesExactly(st: seq<Node>, evs: seq<Event>, t: int, left: int, i: nat)
    requires Trace(st, evs, t) && i < |evs| && left >= 0 && st[0].advLeft == left && st[0].nid in st[0].lsas
    requires forall j :: 0 <= j <= i ==> Unprompted(st, evs, j)
    requires Ticks(evs, i) <= left / t
    ensures st[i].nid == st[0].nid && st[i].timers == st[0].timers && st[0].nid in st[i].lsas
    ensures OwnNumberOf(st[i]) == OwnNumberOf(st[0]) && st[i].advLeft == left - Ticks(evs, i) * t
    ensures st[i + 1].nid == st[0].nid && st[0].nid in st[i + 1].lsas
    ensures evs[i].Tick? && Ticks(evs, i) == left / t ==>
      OwnNumberOf(st[i + 1]) == OwnNumberOf(st[0]) + 1 && st[i + 1].advLeft == st[0].timers.adv
    ensures !(evs[i].Tick? && Ticks(evs, i) == left / t) ==> OwnNumberOf(st[i + 1]) == OwnNumberOf(st[0])
  {
    if i > 0 {
      LeftAfter(evs, i, left, t);
      AdvertisesExactly(st, evs, t, left, i - 1);
      assert TraceAt(st, evs, t, i - 1) && Unprompted(st, evs, i - 1);
      AdvStep(st[i - 1], evs[i - 1]);
      Rounds(left, t, Ticks(evs, i - 1));
    }
    assert TraceAt(st, evs, t, i) && Unprompted(st, evs, i);
    AdvStep(st[i], evs[i]);
    Rounds(left, t, Ticks(evs, i));
  }

  lemma NextRound(k: nat, p: nat)
    requires p > 0
    ensures (k + 1) / p == k / p + (if k % p == p - 1 then 1 else 0)
    ensures (k + 1) % p == if k % p == p - 1 then 0 else k % p + 1
  {
    var a, b := k / p, k % p;
    assert k == a * p + b;
    if b == p - 1 {
      DivIs(k + 1, p, a + 1, 0);
    } else {
      DivIs(k + 1, p, a, b + 1);
    }
  }

  lemma DivIs(n: nat, p: nat, a: nat, b: nat)
    requires p > 0 && n == a * p + b && b < p
    ensures n / p == a && n % p == b
  {
    var x := n / p - a;
    assert x * p == b - n % p;
    if x > 0 {
      AtLeast(x, p);
    } else if x < 0 {
      AtMost(x, p);
    }
  }

  lemma AtLeast(x: nat, p: nat)
    requires x >= 1
    ensures x * p >= p
  {
  }

  lemma AtMost(x: int, p: nat)
    requires x <= -1
    ensures x * p + p <= 0
  {
  }

  /** How often a timer of `adv` has run out after k ticks, and what is left of it then. */
  ghost function RunOuts(adv: nat, t: int, k: nat): nat
    requires t > 0
  {
    k / (adv / t + 1)
  }

  ghost function LeftOf(adv: nat, t: int, k: nat): int
    requires t > 0
  {
    adv - k % (adv / t + 1) * t
  }

  lemma SteadyTick(adv: nat, t: int, k: nat)
    requires t > 0
    ensures if LeftOf(adv, t, k) < t
      then RunOuts(adv, t, k + 1) == RunOuts(adv, t, k) + 1 && LeftOf(adv, t, k + 1) == adv
      else RunOuts(adv, t, k + 1) == RunOuts(adv, t, k) && LeftOf(adv, t, k + 1) == LeftOf(adv, t, k) - t
  {
    var p: nat := adv / t + 1;
    NextRound(k, p);
    Rounds(adv, t, k % p);
    assert (k % p + 1) * t == k % p * t + t;
  }

  /** So a node that nothing else prompts floods its LSA at every tick number a multiple of adv / t + 1, and at no
      other. */
  lemma {:induction false} FloodsSteadily(st: seq<Node>, evs: seq<Event>, t: int, i: nat)
    requires Trace(st, evs, t) && i <= |evs| && st[0].nid in st[0].lsas
    requires st[0].timers.adv >= 0 && st[0].advLeft == st[0].timers.adv
    requires forall j :: 0 <= j < i ==> Unprompted(st, evs, j)
    ensures st[i].nid == st[0].nid && st[i].timers == st[0].timers && st[0].nid in st[i].lsas
    ensures OwnNumberOf(st[i]) == OwnNumberOf(st[0]) + RunOuts(st[0].timers.adv, t, Ticks(evs, i))
    ensures st[i].advLeft == LeftOf(st[0].timers.adv, t, Ticks(evs, i))
  {
    if i == 0 {
      DivIs(0, st[0].timers.adv / t + 1, 0, 0);
    } else {
      hide RunOuts, LeftOf, Step, Prompted;
      FloodsSteadily(st, evs, t, i - 1);
      assert TraceAt(st, evs, t, i - 1) && Unprompted(st, evs, i - 1);
      AdvStep(st[i - 1], evs[i - 1]);
      SteadyTick(st[0].timers.adv, t, Ticks(evs, i - 1));
    }
  }

  // ---------------------------------------------------------------- the retransmission timer

  /** Every advertisement in the send list has the full interval before it. */
  ghost predicate FullTimes(s: Node)
  {
    forall i :: 0 <= i < |s.queue| && s.queue[i].packet.Ad? ==> s.queue[i].timeLeft == s.timers.retran
  }

  ghost predicate AllFull(ps: seq<Pending>, retran: int)
  {
    forall i :: 0 <= i < |ps| && ps[i].packet.Ad? ==> ps[i].timeLeft == retran
  }

  lemma {:induction false} BackwardsFull(parts: seq<seq<Pending>>, retran: int)
    requires forall b :: 0 <= b < |parts| ==> AllFull(parts[b], retran)
    ensures AllFull(Backwards(parts), retran)
  {
    if parts != [] {
      BackwardsFull(parts[1..], retran);
    }
  }

  lemma FullTick(s: Node, ev: Event)
    requires Enabled(s, ev) && ev.Tick? && FullTimes(s)
    ensures FullTimes(Step(s, ev))
  {
    var gone, again, ads := TickLists(s, ev);
    forall b | 0 <= b < |again|
      ensures AllFull(again[b], s.timers.retran)
    {
      assert TickedAt(s.pend[b], Step(s, ev).pend[b], again[b], gone, ev.elapsed, s.timers.retran);
    }
    BackwardsFull(again, s.timers.retran);
    assert AllFull(ads, s.timers.retran);
    Frame(s, ev);
  }

  /** Whatever is put into the send list gets the full interval. */
  lemma FullStep(s: Node, ev: Event)
    requires Enabled(s, ev) && FullTimes(s)
    ensures FullTimes(Step(s, ev)) && Step(s, ev).timers == s.timers
  {
    Frame(s, ev);
    match ev
    case Tick(_) => FullTick(s, ev);
    case AddFile(_, _) => var ads := FileAccount(s, ev);
    case SendAll => SendAccount(s, ev, 0);
    case Deliver(Ack(_, _), _) => AckAccount(s, ev);
    case Deliver(Ad(_, o, _, _), _) =>
      if o == s.nid {
        OwnAdAccount(s, ev);
      } else {
        var ads := AdLists(s, ev);
        assert AllFull(ads, s.timers.retran);
      }
    case Deliver(Seq(o, _), _) =>
      if o == s.nid {
        var ads := OwnSeqAccount(s, ev);
      } else {
        SeqAccount(s, ev);
      }
  }

  lemma {:induction false} FullThrough(st: seq<Node>, evs: seq<Event>, t: int, i: nat)
    requires Trace(st, evs, t) && i <= |evs| && FullTimes(st[0])
    ensures FullTimes(st[i]) && st[i].timers == st[0].timers
  {
    if i > 0 {
      FullThrough(st, evs, t, i - 1);
      assert TraceAt(st, evs, t, i - 1);
      FullStep(st[i - 1], evs[i - 1]);
    }
  }

  /** Each advertisement has been made at most once for each address, is held at most as often, and names a number that
      is used up. */
  ghost predicate Once(s: Node)
  {
    && s.nid in s.lsas && s.lsas[s.nid].ttl == 32 && AddrsDiffer(s.nbs) && PendShape(s.pend)
    && forall at: Addr, pk: Packet {:trigger OnceAt(s, at, pk)} :: pk.Ad? ==> OnceAt(s, at, pk)
  }

  ghost predicate OnceAt(s: Node, at: Addr, pk: Packet)
  {
    Held(s, at, pk) <= Count(s.made, at, pk) <= 1 && (Count(s.made, at, pk) > 0 ==> UsedUp(s, pk))
  }

  /** The number is below the own next one, or not above the stored one. */
  ghost predicate UsedUp(s: Node, pk: Packet)
  {
    pk.origin in s.lsas && if pk.origin == s.nid then pk.seqNum < s.lsas[s.nid].seqNum
                           else pk.seqNum <= s.lsas[pk.origin].seqNum
  }

  /** Only a number that is not used up is made, and then it is. */
  lemma MadeIsNew(s: Node, ev: Event, at: Addr, pk: Packet)
    requires Enabled(s, ev) && Makes(s, ev, at, pk) && s.lsas[s.nid].ttl == 32
    ensures !UsedUp(s, pk) && UsedUp(Step(s, ev), pk) && pk.Ad?
  {
    match ev
    case Tick(_) => TickOwnLsa(s, ev); TickTables(s, ev);
    case AddFile(_, _) => var ads := FileAccount(s, ev);
    case Deliver(Ad(_, _, _, _), _) => NewAdAccount(s, ev); Frame(s, ev);
    case Deliver(Seq(_, _), _) => var ads := OwnSeqAccount(s, ev);
    case _ =>
  }

  lemma UsedUpStays(s: Node, ev: Event, pk: Packet)
    requires Enabled(s, ev) && s.lsas[s.nid].ttl == 32 && UsedUp(s, pk)
    ensures UsedUp(Step(s, ev), pk)
  {
    Frame(s, ev);
    OwnNumber(s, ev);
    if pk.origin != s.nid {
      ForeignNumber(s, ev, pk.origin);
    }
  }

  lemma OnceStepAt(s: Node, ev: Event, at: Addr, pk: Packet)
    requires Enabled(s, ev) && Once(s) && pk.Ad?
    ensures OnceAt(Step(s, ev), at, pk)
  {
    assert OnceAt(s, at, pk);
    MakesExactly(s, ev, at, pk);
    Conservation(s, ev, at, pk);
    MakesAs(s, ev, at, pk);
    NewAdsCount(s, ev, at, pk);
    if Makes(s, ev, at, pk) {
      MadeIsNew(s, ev, at, pk);
    } else if Count(s.made, at, pk) > 0 {
      UsedUpStays(s, ev, pk);
    }
  }

  lemma OnceStep(s: Node, ev: Event)
    requires Enabled(s, ev) && Once(s)
    ensures Once(Step(s, ev))
  {
    Frame(s, ev);
    OwnNumber(s, ev);
    StepShape(s, ev);
    DistinctStays(s, ev);
    forall at, pk: Packet {:trigger OnceAt(Step(s, ev), at, pk)} | pk.Ad?
      ensures OnceAt(Step(s, ev), at, pk)
    {
      OnceStepAt(s, ev, at, pk);
    }
  }

  lemma DistinctStays(s: Node, ev: Event)
    requires Enabled(s, ev) && AddrsDiffer(s.nbs)
    ensures AddrsDiffer(Step(s, ev).nbs)
  {
    Frame(s, ev);
    forall i, j | 0 <= i < j < |s.nbs|
      ensures Step(s, ev).nbs[i].val.Address() != Step(s, ev).nbs[j].val.Address()
    {
      assert s.nbs[i].val.Address() != s.nbs[j].val.Address();
    }
  }

  lemma {:induction false} OnceThrough(st: seq<Node>, evs: seq<Event>, t: int, i: nat)
    requires Trace(st, evs, t) && i <= |evs| && Once(st[0])
    ensures Once(st[i])
  {
    if i > 0 {
      OnceThrough(st, evs, t, i - 1);
      assert TraceAt(st, evs, t, i - 1);
      OnceStep(st[i - 1], evs[i - 1]);
    }
  }

  lemma BootOnce(nid: nat, timers: Timers, nbs: seq<Entry<nat, Neighbour>>, files: seq<string>)
    requires AddrsDiffer(nbs)
    ensures Once(Boot(nid, timers, nbs, files)) && FullTimes(Boot(nid, timers, nbs, files))
  {
    var s := Boot(nid, timers, nbs, files);
    BootAccount(nid, timers, nbs, files);
    forall at, pk: Packet {:trigger OnceAt(s, at, pk)} | pk.Ad?
      ensures OnceAt(s, at, pk)
    {
      BootHolds(nid, timers, nbs, files, at, pk);
      forall i, j | 0 <= i < j < |nbs|
        ensures nbs[i].val.Address() != nbs[j].val.Address()
      {
      }
      TargetsOnce(nbs, nid, nid, None, at);
    }
  }

  // ---------------------------------------------------------------- when exactly it is sent again

  /** The rest of a trace. */
  lemma TraceFrom(st: seq<Node>, evs: seq<Event>, t: int, i: nat)
    requires Trace(st, evs, t) && i <= |evs|
    ensures Trace(st[i..], evs[i..], t)
  {
    forall k | 0 <= k < |evs[i..]|
      ensures TraceAt(st[i..], evs[i..], t, k)
    {
      assert TraceAt(st, evs, t, i + k);
    }
  }

  lemma {:induction false} TicksFrom(evs: seq<Event>, i: nat, j: nat)
    requires i <= j <= |evs|
    ensures Ticks(evs[i..], j - i) == Ticks(evs, j) - Ticks(evs, i)
    decreases j
  {
    if i < j {
      TicksFrom(evs, i, j - 1);
    }
  }

  /** What is in the send list waits for its acknowledgement once it has been sent. */
  lemma SentWaits(s: Node, ev: Event, dst: Addr, pk: Packet)
    requires Enabled(s, ev) && ev.SendAll? && FullTimes(s) && pk.Ad? && Count(s.queue, dst, pk) > 0
    ensures Waits(Step(s, ev).pend, dst, pk, s.timers.retran)
  {
    var i := CountedAt(s.queue, dst, pk);
    var b := pk.origin % 50;
    SendAccount(s, ev, b);
    ThoseHas(s.queue, AdIn(b), i);
    ReversedHas(Those(s.queue, AdIn(b)), s.queue[i]);
    assert s.queue[i] == Pending(dst, s.timers.retran, pk) && s.queue[i] in Step(s, ev).pend[b];
  }

  lemma {:induction false} ReversedHas(xs: seq<Pending>, x: Pending)
    requires x in xs
    ensures x in Reversed(xs)
  {
    if xs[0] != x {
      ReversedHas(xs[1..], x);
    }
  }

  /** What waits is not in the send list. */
  lemma WaitsNotQueued(s: Node, dst: Addr, pk: Packet, left: int)
    requires Once(s) && pk.Ad? && Waits(s.pend, dst, pk, left)
    ensures Count(s.queue, dst, pk) == 0
  {
    var b :| 0 <= b < |s.pend| && Pending(dst, left, pk) in s.pend[b];
    var k :| 0 <= k < |s.pend[b]| && s.pend[b][k] == Pending(dst, left, pk);
    CountAt(s.pend[b], k);
    PendCountAt(s.pend, b, dst, pk);
    assert OnceAt(s, dst, pk);
  }

  /** Nothing answers the packet, or takes the neighbour down that it is for, in events i to j. */
  ghost predicate Unanswered(st: seq<Node>, evs: seq<Event>, dst: Addr, pk: Packet, i: nat, j: nat)
    requires j <= |evs| < |st|
  {
    forall k :: i <= k < j ==> Undisturbed(st, evs, dst, pk, k)
  }

  lemma UnansweredFrom(st: seq<Node>, evs: seq<Event>, dst: Addr, pk: Packet, i: nat, j: nat)
    requires i <= j <= |evs| && |st| == |evs| + 1 && Unanswered(st, evs, dst, pk, i, j)
    ensures forall k :: 0 <= k < j - i ==> Undisturbed(st[i..], evs[i..], dst, pk, k)
  {
    forall k | 0 <= k < j - i
      ensures Undisturbed(st[i..], evs[i..], dst, pk, k)
    {
      assert Undisturbed(st, evs, dst, pk, i + k);
    }
  }

  /** The node has just started, or has been reached from there. */
  ghost predicate Started(s: Node)
  {
    s == Boot(s.nid, s.timers, s.nbs, s.files) && AddrsDiffer(s.nbs)
  }

  /** An advertisement that is sent at step i, whatever has put it into the send list, is not in the send list again
      before tick number retran / t + 1 after that. */
  lemma NotSentBefore(st: seq<Node>, evs: seq<Event>, t: int, dst: Addr, pk: Packet, i: nat, j: nat)
    requires Trace(st, evs, t) && Started(st[0]) && st[0].timers.retran >= 0 && i < j <= |evs|
    requires evs[i] == SendAll && pk.Ad? && Count(st[i].queue, dst, pk) > 0 && Unanswered(st, evs, dst, pk, i + 1, j)
    requires Ticks(evs, j) - Ticks(evs, i + 1) <= st[0].timers.retran / t
    ensures Count(st[j].queue, dst, pk) == 0 && st[j].timers == st[0].timers && PendShape(st[j].pend)
    ensures Waits(st[j].pend, dst, pk, st[0].timers.retran - (Ticks(evs, j) - Ticks(evs, i + 1)) * t)
  {
    BootOnce(st[0].nid, st[0].timers, st[0].nbs, st[0].files);
    FullThrough(st, evs, t, i);
    OnceThrough(st, evs, t, i + 1);
    OnceThrough(st, evs, t, j);
    assert TraceAt(st, evs, t, i);
    SentWaits(st[i], evs[i], dst, pk);
    FullThrough(st, evs, t, i + 1);
    TraceFrom(st, evs, t, i + 1);
    TicksFrom(evs, i + 1, j);
    UnansweredFrom(st, evs, dst, pk, i + 1, j);
    WaitsThrough(st[i + 1..], evs[i + 1..], t, dst, pk, st[0].timers.retran, j - i - 1);
    WaitsNotQueued(st[j], dst, pk, st[0].timers.retran - (Ticks(evs, j) - Ticks(evs, i + 1)) * t);
  }

  /** And that tick puts it there again, once. */
  lemma SentAgain(st: seq<Node>, evs: seq<Event>, t: int, dst: Addr, pk: Packet, i: nat, j: nat)
    requires Trace(st, evs, t) && Started(st[0]) && st[0].timers.retran >= 0 && i < j < |evs|
    requires evs[i] == SendAll && pk.Ad? && Count(st[i].queue, dst, pk) > 0
    requires Unanswered(st, evs, dst, pk, i + 1, j + 1)
    requires evs[j].Tick? && Ticks(evs, j) - Ticks(evs, i + 1) == st[0].timers.retran / t
    ensures Count(st[j + 1].queue, dst, pk) == 1 && Pending(dst, st[0].timers.retran, pk) in st[j + 1].queue
  {
    var retran, k := st[0].timers.retran, Ticks(evs, j) - Ticks(evs, i + 1);
    NotSentBefore(st, evs, t, dst, pk, i, j);
    NowOver(retran, t, k);
    TickReturns(st, evs, t, dst, pk, retran - k * t, j);
    QueuedOnce(st, evs, t, j + 1, Pending(dst, retran, pk));
  }

  lemma TickReturns(st: seq<Node>, evs: seq<Event>, t: int, dst: Addr, pk: Packet, left: int, j: nat)
    requires Trace(st, evs, t) && j < |evs| && evs[j].Tick? && Undisturbed(st, evs, dst, pk, j)
    requires PendShape(st[j].pend) && Waits(st[j].pend, dst, pk, left) && left < t
    ensures Pending(dst, st[j].timers.retran, pk) in st[j + 1].queue
  {
    assert TraceAt(st, evs, t, j);
    WaitsStep(st[j], evs[j], dst, pk, left);
  }

  lemma QueuedOnce(st: seq<Node>, evs: seq<Event>, t: int, j: nat, p: Pending)
    requires Trace(st, evs, t) && Started(st[0]) && j <= |evs| && p.packet.Ad? && p in st[j].queue
    ensures Count(st[j].queue, p.dst, p.packet) == 1
  {
    BootOnce(st[0].nid, st[0].timers, st[0].nbs, st[0].files);
    OnceThrough(st, evs, t, j);
    assert OnceAt(st[j], p.dst, p.packet);
    var k :| 0 <= k < |st[j].queue| && st[j].queue[k] == p;
    CountAt(st[j].queue, k);
  }
}
