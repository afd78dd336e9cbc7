/** One step of one node: which advertisements it creates, which it drops, which numbers it changes. */
module Steps {
  import opened HashTables
  import opened Types
  import opened Protocol
  import opened Effects

  /** Pending entries are advertisements in the bucket of their origin. */
  ghost predicate PendShape(pend: seq<seq<Pending>>)
  {
    && |pend| == PEND_ACK_BUCKET_SIZE
    && forall b, i :: 0 <= b < |pend| && 0 <= i < |pend[b]| ==>
         pend[b][i].packet.Ad? && pend[b][i].packet.origin % PEND_ACK_BUCKET_SIZE == b
  }

  /** Same neighbours at the same addresses; only the up/down flags may differ. */
  ghost predicate SameNbs(a: seq<Entry<nat, Neighbour>>, b: seq<Entry<nat, Neighbour>>)
  {
    && |a| == |b|
    && forall i :: 0 <= i < |a| ==> a[i].key == b[i].key && a[i].val.Address() == b[i].val.Address()
  }

  /** One run of prep_flood_lsa. */
  datatype FloodRun = FloodRun(nbs: seq<Entry<nat, Neighbour>>, origin: nat, except: Option<Addr>, lsa: Lsa)
  {
    function Packet(): Packet
    {
      Ad(lsa.ttl, origin, lsa.seqNum, lsa.body)
    }
  }

  ghost predicate Accepts(s: Node, ev: Event)
  {
    && ev.Deliver? && ev.packet.Ad? && ev.packet.origin != s.nid
    && !Restarted(s, ev.packet) && Newer(s, ev.packet)
  }

  /** The state in which process_timeout decides whether to advertise. */
  ghost function AfterExpiry(s: Node, elapsed: int): Node
    requires s.nid in s.lsas
  {
    if NbExpires(s, elapsed) then Reload(AgeLsas(s, elapsed)) else AgeLsas(s, elapsed)
  }

  /** The flood that an event causes; there is never more than one. */
  ghost function FloodOf(s: Node, ev: Event): Option<FloodRun>
    requires Enabled(s, ev)
  {
    match ev
    case Deliver(Ad(ttl, origin, seqNum, body), from) =>
      if Accepts(s, ev) && ttl - 1 > 0 then
        var s1 := Revive(Learn(s, ev.packet), origin);
        Some(FloodRun(s1.nbs, origin, Some(from), s1.lsas[origin]))
      else None
    case Deliver(Seq(origin, seqNum), from) =>
      if origin == s.nid && s.lsas[origin].seqNum < seqNum + 1 then
        Some(FloodRun(s.nbs, s.nid, None, s.lsas[s.nid].(seqNum := seqNum + 1)))
      else None
    case Tick(elapsed) =>
      var s2 := AfterExpiry(s, elapsed);
      if NbExpires(s, elapsed) || s2.advLeft < 0 then Some(FloodRun(s2.nbs, s.nid, None, s2.lsas[s.nid])) else None
    case AddFile(name, filesAfter) =>
      if name in s.files then None
      else Some(FloodRun(s.nbs, s.nid, None, Reload(s.(files := filesAfter)).lsas[s.nid]))
    case _ => None
  }

  ghost function NewAds(s: Node, ev: Event): seq<Pending>
    requires Enabled(s, ev)
  {
    match FloodOf(s, ev)
    case None => []
    case Some(f) => FloodAds(f.nbs, s.nid, f.origin, f.except, f.lsa, s.timers.retran)
  }

  /** How many copies of a held advertisement an event takes away: an acknowledgement or sequence report at
      most the one it names, a neighbour going down every pending one for it. */
  ghost function Lost(s: Node, ev: Event, dst: Addr, pk: Packet): nat
    requires Enabled(s, ev)
  {
    match ev
    case Deliver(Ack(origin, seqNum), from) => Hit(Removed(s.pend, origin, seqNum, from), dst, pk)
    case Deliver(Seq(origin, _), from) => Hit(Removed(s.pend, origin, 0, from), dst, pk)
    case Tick(elapsed) => if dst in AddrsOf(s.nbs, Expired(s, elapsed)) then PendCount(s.pend, dst, pk) else 0
    case _ => 0
  }

  ghost function Hit(gone: Option<Pending>, dst: Addr, pk: Packet): nat
  {
    if gone.Some? && Matches(gone.value, dst, pk) then 1 else 0
  }

  /** The reply to an advertisement that is not the own one. */
  ghost function ReplyTo(s: Node, ad: Packet): Packet
    requires ad.Ad?
  {
    if Restarted(s, ad) then Seq(ad.origin, s.lsas[ad.origin].seqNum) else Ack(ad.origin, ad.seqNum)
  }

  /** The replies and floods that an event puts in front of the send list. */
  lemma RecvAdQueue(s: Node, ev: Event)
    requires Enabled(s, ev) && ev.Deliver? && ev.packet.Ad?
    ensures Step(s, ev).pend == s.pend
    ensures Step(s, ev).queue == if ev.packet.origin == s.nid then s.queue
                                 else [Pending(ev.from, 0, ReplyTo(s, ev.packet))] + (NewAds(s, ev) + s.queue)
  {
    assert [] + s.queue == s.queue;
    if Accepts(s, ev) {
      var s2 := Accept(s, ev.packet, ev.from);
      assert s2.queue == NewAds(s, ev) + s.queue && s2.pend == s.pend;
      assert Step(s, ev) == Enqueue(s2, ev.from, Ack(ev.packet.origin, ev.packet.seqNum));
    } else {
      assert NewAds(s, ev) == [];
    }
  }

  lemma RecvAdCount(s: Node, ev: Event, dst: Addr, pk: Packet)
    requires Enabled(s, ev) && ev.Deliver? && ev.packet.Ad?
    ensures Count(Step(s, ev).queue, dst, pk) == Count(s.queue, dst, pk) + Count(NewAds(s, ev), dst, pk)
      + if ev.packet.origin != s.nid && Matches(Pending(ev.from, 0, ReplyTo(s, ev.packet)), dst, pk) then 1 else 0
  {
    RecvAdQueue(s, ev);
    if ev.packet.origin != s.nid {
      var reply := Pending(ev.from, 0, ReplyTo(s, ev.packet));
      CountAppend(NewAds(s, ev), s.queue, dst, pk);
      CountAppend([reply], NewAds(s, ev) + s.queue, dst, pk);
      CountOne(reply, dst, pk);
    } else {
      assert NewAds(s, ev) == [];
    }
  }

  lemma TickCount(s: Node, ev: Event, dst: Addr, pk: Packet)
    requires Enabled(s, ev) && ev.Tick?
    ensures Held(Step(s, ev), dst, pk) == Held(s, dst, pk) - Lost(s, ev, dst, pk) + Count(NewAds(s, ev), dst, pk)
  {
    var s2 := AfterExpiry(s, ev.elapsed);
    AllNotToCount(s.pend, s2.pend, AddrsOf(s.nbs, Expired(s, ev.elapsed)), dst, pk);
    assert s2.queue == s.queue;
    CountAppend(NewAds(s, ev), s.queue, dst, pk);
    var s3 := if FloodOf(s, ev).Some? then Advertise(s2) else s2;
    assert [] + s.queue == s.queue;
    assert s3.queue == NewAds(s, ev) + s.queue && s3.pend == s2.pend;
    assert Step(s, ev) == Retransmit(s3, ev.elapsed);
    RetransmitKeeps(s3, ev.elapsed, dst, pk);
  }

  lemma AckCount(s: Node, ev: Event, dst: Addr, pk: Packet)
    requires Enabled(s, ev) && ev.Deliver? && ev.packet.Ack?
    ensures Count(Step(s, ev).queue, dst, pk) == Count(s.queue, dst, pk) && NewAds(s, ev) == []
    ensures PendCount(Step(s, ev).pend, dst, pk) == PendCount(s.pend, dst, pk) - Lost(s, ev, dst, pk)
  {
    RemoveAckCount(s.pend, ev.packet.origin, ev.packet.seqNum, ev.from, dst, pk);
  }

  /** What a sequence report does to send list and pending table. */
  lemma SeqLists(s: Node, ev: Event)
    requires Enabled(s, ev) && ev.Deliver? && ev.packet.Seq?
    ensures Step(s, ev).queue == NewAds(s, ev) + s.queue
    ensures Step(s, ev).pend == RemoveAck(s.pend, ev.packet.origin, 0, ev.from)
  {
    assert [] + s.queue == s.queue;
  }

  lemma SeqCount(s: Node, ev: Event, dst: Addr, pk: Packet)
    requires Enabled(s, ev) && ev.Deliver? && ev.packet.Seq?
    ensures Count(Step(s, ev).queue, dst, pk) == Count(s.queue, dst, pk) + Count(NewAds(s, ev), dst, pk)
    ensures PendCount(Step(s, ev).pend, dst, pk) == PendCount(s.pend, dst, pk) - Lost(s, ev, dst, pk)
  {
    SeqLists(s, ev);
    RemoveAckCount(s.pend, ev.packet.origin, 0, ev.from, dst, pk);
    CountAppend(NewAds(s, ev), s.queue, dst, pk);
  }

  lemma SendCount(s: Node, ev: Event, dst: Addr, pk: Packet)
    requires Enabled(s, ev) && ev.SendAll?
    ensures Count(Step(s, ev).queue, dst, pk) == 0 && NewAds(s, ev) == []
    ensures PendCount(Step(s, ev).pend, dst, pk) ==
      PendCount(s.pend, dst, pk) + if pk.Ad? then Count(s.queue, dst, pk) else 0
  {
    PendAllCount(s.pend, s.queue, dst, pk);
  }

  lemma FileCount(s: Node, ev: Event, dst: Addr, pk: Packet)
    requires Enabled(s, ev) && ev.AddFile?
    ensures Count(Step(s, ev).queue, dst, pk) == Count(s.queue, dst, pk) + Count(NewAds(s, ev), dst, pk)
    ensures Step(s, ev).pend == s.pend
  {
    CountAppend(NewAds(s, ev), s.queue, dst, pk);
    if FloodOf(s, ev).Some? {
      assert Step(s, ev).queue == NewAds(s, ev) + s.queue;
    }
  }

  lemma EventCount(s: Node, ev: Event, dst: Addr, pk: Packet)
    requires Enabled(s, ev) && !(ev.Deliver? && ev.packet.Ad?)
    ensures !pk.Ad? && !ev.Tick? ==>
      Count(Step(s, ev).queue, dst, pk) <= Count(s.queue, dst, pk) + Count(NewAds(s, ev), dst, pk)
    ensures pk.Ad? || ev.Tick? ==>
      Held(Step(s, ev), dst, pk) == Held(s, dst, pk) - Lost(s, ev, dst, pk) + Count(NewAds(s, ev), dst, pk)
  {
    match ev
    case Deliver(Ack(_, _), _) => AckCount(s, ev, dst, pk);
    case Deliver(Seq(_, _), _) => SeqCount(s, ev, dst, pk);
    case SendAll => SendCount(s, ev, dst, pk);
    case Tick(_) => TickCount(s, ev, dst, pk);
    case AddFile(_, _) => FileCount(s, ev, dst, pk);
  }

  /** Conservation: apart from the one flood and the listed losses, every advertisement keeps the number of its
      entries in the send list and the pending table together. */
  lemma Conservation(s: Node, ev: Event, dst: Addr, pk: Packet)
    requires Enabled(s, ev) && pk.Ad?
    ensures Held(Step(s, ev), dst, pk) == Held(s, dst, pk) - Lost(s, ev, dst, pk) + Count(NewAds(s, ev), dst, pk)
  {
    if ev.Deliver? && ev.packet.Ad? {
      RecvAdQueue(s, ev);
      RecvAdCount(s, ev, dst, pk);
    } else {
      EventCount(s, ev, dst, pk);
    }
  }

  /** A packet that is no advertisement is in the send list only if it was, or is the reply to this event. */
  lemma RepliesOnly(s: Node, ev: Event, dst: Addr, pk: Packet)
    requires Enabled(s, ev) && !pk.Ad? && PendShape(s.pend)
    requires Count(Step(s, ev).queue, dst, pk) > 0
    ensures Count(s.queue, dst, pk) > 0
         || (&& ev.Deliver? && ev.packet.Ad? && ev.packet.origin != s.nid
             && dst == ev.from && pk == ReplyTo(s, ev.packet))
  {
    NoForeign(s, ev, dst, pk);
    if ev.Deliver? && ev.packet.Ad? {
      RecvAdCount(s, ev, dst, pk);
    } else {
      EventCount(s, ev, dst, pk);
    }
  }

  lemma OnlyAdsPending(pend: seq<seq<Pending>>, dst: Addr, pk: Packet)
    requires PendShape(pend) && !pk.Ad?
    ensures PendCount(pend, dst, pk) == 0
  {
    if PendCount(pend, dst, pk) > 0 {
      var b := PendCountedAt(pend, dst, pk);
      var i := CountedAt(pend[b], dst, pk);
    }
  }

  lemma NoForeign(s: Node, ev: Event, dst: Addr, pk: Packet)
    requires Enabled(s, ev) && !pk.Ad? && PendShape(s.pend)
    ensures PendCount(s.pend, dst, pk) == 0 && Count(NewAds(s, ev), dst, pk) == 0
  {
    OnlyAdsPending(s.pend, dst, pk);
    if FloodOf(s, ev).Some? {
      var f := FloodOf(s, ev).value;
      FloodAdsCount(f.nbs, s.nid, f.origin, f.except, f.lsa, s.timers.retran, dst, pk);
    }
  }

  // ---------------------------------------------------------------- pending table shape

  lemma {:induction false} PendAllShape(pend: seq<seq<Pending>>, queue: seq<Pending>)
    requires PendShape(pend)
    ensures PendShape(PendAll(pend, queue))
  {
    if queue != [] {
      PendAllShape(pend, queue[..|queue| - 1]);
    }
  }

  lemma {:induction false} WaitingFrom(chain: seq<Pending>, elapsed: int, i: nat)
    requires i < |Waiting(chain, elapsed)|
    ensures exists j :: 0 <= j < |chain| && chain[j].packet == Waiting(chain, elapsed)[i].packet
  {
    var rest := chain[..|chain| - 1];
    if i < |Waiting(rest, elapsed)| {
      WaitingFrom(rest, elapsed, i);
      var j :| 0 <= j < |rest| && rest[j].packet == Waiting(rest, elapsed)[i].packet;
      assert chain[j] == rest[j];
    }
  }

  lemma {:induction false} NotToFrom(chain: seq<Pending>, addrs: set<Addr>, i: nat)
    requires i < |NotTo(chain, addrs)|
    ensures exists j :: 0 <= j < |chain| && chain[j] == NotTo(chain, addrs)[i]
  {
    var rest := chain[..|chain| - 1];
    if i < |NotTo(rest, addrs)| {
      NotToFrom(rest, addrs, i);
      var j :| 0 <= j < |rest| && rest[j] == NotTo(rest, addrs)[i];
      assert chain[j] == rest[j];
    }
  }

  lemma NotToShape(pend: seq<seq<Pending>>, kept: seq<seq<Pending>>, addrs: set<Addr>)
    requires PendShape(pend) && |kept| == |pend| && forall b :: 0 <= b < |pend| ==> kept[b] == NotTo(pend[b], addrs)
    ensures PendShape(kept)
  {
    forall b: nat, i: nat | 0 <= b < |kept| && 0 <= i < |kept[b]|
      ensures kept[b][i].packet.Ad? && kept[b][i].packet.origin % PEND_ACK_BUCKET_SIZE == b
    {
      NotToFrom(pend[b], addrs, i);
    }
  }

  lemma WaitingShape(pend: seq<seq<Pending>>, waiting: seq<seq<Pending>>, elapsed: int)
    requires PendShape(pend) && |waiting| == |pend|
    requires forall b :: 0 <= b < |pend| ==> waiting[b] == Waiting(pend[b], elapsed)
    ensures PendShape(waiting)
  {
    forall b: nat, i: nat | 0 <= b < |waiting| && 0 <= i < |waiting[b]|
      ensures waiting[b][i].packet.Ad? && waiting[b][i].packet.origin % PEND_ACK_BUCKET_SIZE == b
    {
      WaitingFrom(pend[b], elapsed, i);
    }
  }

  lemma TickShape(s: Node, ev: Event)
    requires Enabled(s, ev) && PendShape(s.pend) && ev.Tick?
    ensures PendShape(Step(s, ev).pend)
  {
    var mid := AgeLsas(s, ev.elapsed).pend;
    NotToShape(s.pend, mid, AddrsOf(s.nbs, Expired(s, ev.elapsed)));
    WaitingShape(mid, Step(s, ev).pend, ev.elapsed);
  }

  lemma AdPend(s: Node, ev: Event)
    requires Enabled(s, ev) && (ev.AddFile? || (ev.Deliver? && ev.packet.Ad?))
    ensures Step(s, ev).pend == s.pend
  {
    if ev.Deliver? {
      RecvAdQueue(s, ev);
    }
  }

  lemma StepShape(s: Node, ev: Event)
    requires Enabled(s, ev) && PendShape(s.pend)
    ensures PendShape(Step(s, ev).pend)
  {
    match ev
    case Tick(_) => TickShape(s, ev);
    case SendAll => PendAllShape(s.pend, s.queue);
    case AddFile(_, _) => AdPend(s, ev);
    case Deliver(Ad(_, _, _, _), _) => AdPend(s, ev);
    case Deliver(Seq(_, _), _) => SeqLists(s, ev);
    case Deliver(Ack(_, _), _) =>
  }

  // ---------------------------------------------------------------- frame and numbers

  ghost predicate Framed(s: Node, s': Node, added: seq<Pending>)
  {
    && s'.nid == s.nid && s'.timers == s.timers && s.lsas.Keys <= s'.lsas.Keys
    && |s'.pend| == |s.pend| && SameNbs(s.nbs, s'.nbs) && s'.made == added + s.made
  }

  lemma FloodFrame(s: Node, origin: nat, except: Option<Addr>)
    requires origin in s.lsas
    ensures Framed(s, Flood(s, origin, except), FloodAds(s.nbs, s.nid, origin, except, s.lsas[origin], s.timers.retran))
  {
  }

  lemma TickFrame(s: Node, ev: Event)
    requires Enabled(s, ev) && ev.Tick?
    ensures Framed(s, Step(s, ev), NewAds(s, ev))
    ensures FloodOf(s, ev).Some? ==> SameNbs(s.nbs, FloodOf(s, ev).value.nbs)
  {
    var s2 := AfterExpiry(s, ev.elapsed);
    assert Framed(s, s2, []) by { assert [] + s.made == s.made; }
    FloodFrame(s2, s.nid, None);
    assert [] + s.made == s.made;
  }

  lemma AdFrame(s: Node, ev: Event)
    requires Enabled(s, ev) && ev.Deliver? && ev.packet.Ad?
    ensures Framed(s, Step(s, ev), NewAds(s, ev))
    ensures FloodOf(s, ev).Some? ==> SameNbs(s.nbs, FloodOf(s, ev).value.nbs)
  {
    assert [] + s.made == s.made;
    if Accepts(s, ev) {
      var s1 := Revive(Learn(s, ev.packet), ev.packet.origin);
      assert Framed(s, s1, []);
      FloodFrame(s1, ev.packet.origin, Some(ev.from));
    }
  }

  /** What no event changes, and that `made` records exactly the floods. */
  lemma Frame(s: Node, ev: Event)
    requires Enabled(s, ev)
    ensures Framed(s, Step(s, ev), NewAds(s, ev))
    ensures FloodOf(s, ev).Some? ==> SameNbs(s.nbs, FloodOf(s, ev).value.nbs)
  {
    if ev.Tick? {
      TickFrame(s, ev);
    } else if ev.Deliver? && ev.packet.Ad? {
      AdFrame(s, ev);
    } else {
      assert [] + s.made == s.made;
      if FloodOf(s, ev).None? {
        assert NewAds(s, ev) == [];
      }
    }
  }

  ghost predicate FloodsOwn(s: Node, ev: Event)
    requires Enabled(s, ev)
  {
    FloodOf(s, ev).Some? && FloodOf(s, ev).value.origin == s.nid
  }

  /** The own number moves only with an own flood, to one past the flooded number, and the flooded LSA is then
      the stored one. */
  lemma OwnNumber(s: Node, ev: Event)
    requires Enabled(s, ev) && s.lsas[s.nid].ttl == LSA_MAX_TTL
    ensures var own' := Step(s, ev).lsas[s.nid];
      && own'.ttl == LSA_MAX_TTL
      && if FloodsOwn(s, ev) then
           var lsa := FloodOf(s, ev).value.lsa;
           && s.lsas[s.nid].seqNum <= lsa.seqNum && own'.seqNum == lsa.seqNum + 1
           && own'.body == lsa.body && lsa.ttl == LSA_MAX_TTL && FloodOf(s, ev).value.except == None
         else own'.seqNum == s.lsas[s.nid].seqNum
  {
    if ev.Tick? {
      TickOwnNumber(s, ev.elapsed);
    }
  }

  lemma TickOwnNumber(s: Node, elapsed: int)
    requires Enabled(s, Event.Tick(elapsed)) && s.lsas[s.nid].ttl == LSA_MAX_TTL
    ensures var own' := Step(s, Event.Tick(elapsed)).lsas[s.nid];
      && own'.ttl == LSA_MAX_TTL
      && match FloodOf(s, Event.Tick(elapsed))
         case None => own'.seqNum == s.lsas[s.nid].seqNum
         case Some(f) =>
           && s.lsas[s.nid].seqNum <= f.lsa.seqNum && own'.seqNum == f.lsa.seqNum + 1
           && own'.body == f.lsa.body && f.lsa.ttl == LSA_MAX_TTL && f.except == None && f.origin == s.nid
  {
    var s2 := AfterExpiry(s, elapsed);
    assert s2.lsas[s.nid].seqNum == s.lsas[s.nid].seqNum && s2.lsas[s.nid].ttl == LSA_MAX_TTL;
  }

  /** A foreign number moves only by accepting an advertisement or by a sequence report. */
  lemma ForeignNumber(s: Node, ev: Event, o: nat)
    requires Enabled(s, ev) && o != s.nid && o in Step(s, ev).lsas
    ensures var n := Step(s, ev).lsas[o].seqNum;
      || (o in s.lsas && n == s.lsas[o].seqNum)
      || (Accepts(s, ev) && ev.packet.origin == o && ev.packet.seqNum == n)
      || (ev.Deliver? && ev.packet.Seq? && o == ev.packet.origin && o in s.lsas &&
          s.lsas[o].seqNum < n == ev.packet.seqNum)
  {
  }

  /** Accepting stores the new number, and floods exactly when the time to live allows one more hop. */
  lemma AcceptEffect(s: Node, ev: Event)
    requires Enabled(s, ev) && Accepts(s, ev)
    ensures var s', ad := Step(s, ev), ev.packet;
      && ad.origin in s'.lsas && s'.lsas[ad.origin].seqNum == ad.seqNum && s'.lsas[ad.origin].valid
      && s'.lsas[ad.origin].ttl == LessOne(ad.ttl) && s'.lsas[ad.origin].body == ad.body
      && (FloodOf(s, ev).Some? <==> ad.ttl - 1 > 0)
      && (FloodOf(s, ev).Some? ==>
            var f := FloodOf(s, ev).value;
            f.origin == ad.origin && f.except == Some(ev.from) && f.lsa == s'.lsas[ad.origin])
  {
    var s1 := Revive(Learn(s, ev.packet), ev.packet.origin);
    assert s1.lsas[ev.packet.origin] == Learn(s, ev.packet).lsas[ev.packet.origin];
  }

  /** A foreign flood is the continuation of an accepted one. */
  lemma ForeignFlood(s: Node, ev: Event)
    requires Enabled(s, ev) && FloodOf(s, ev).Some? && !FloodsOwn(s, ev)
    ensures Accepts(s, ev)
  {
  }

  // ---------------------------------------------------------------- summary

  ghost predicate FloodedBy(f: Option<FloodRun>, pk: Packet)
  {
    f.Some? && pk == f.value.Packet()
  }

  /** Everything the network argument uses of one step from `s` to `s'`. */
  ghost predicate Summary(s: Node, ev: Event, s': Node, accepts: bool, f: Option<FloodRun>)
  {
    && s.nid in s.lsas && s'.nid == s.nid && s.lsas.Keys <= s'.lsas.Keys && SameNbs(s.nbs, s'.nbs) && PendShape(s'.pend)
    && s'.lsas[s.nid].ttl == LSA_MAX_TTL
    && (if f.Some? && f.value.origin == s.nid then
          && s.lsas[s.nid].seqNum <= f.value.lsa.seqNum && s'.lsas[s.nid].seqNum == f.value.lsa.seqNum + 1
          && f.value.lsa.ttl == LSA_MAX_TTL
        else s'.lsas[s.nid].seqNum == s.lsas[s.nid].seqNum)
    && (forall o :: o in s'.lsas && o != s.nid ==>
          || (o in s.lsas && s'.lsas[o].seqNum == s.lsas[o].seqNum)
          || (accepts && ev.Deliver? && ev.packet.origin == o && s'.lsas[o].seqNum == ev.packet.seqNum)
          || (&& ev.Deliver? && ev.packet.Seq? && o == ev.packet.origin && o in s.lsas
              && s.lsas[o].seqNum < s'.lsas[o].seqNum == ev.packet.seqNum))
    && (accepts ==>
          && ev.Deliver? && ev.packet.Ad? && ev.packet.origin != s.nid && ev.packet.origin in s'.lsas
          && (ev.packet.origin in s.lsas ==> s.lsas[ev.packet.origin].seqNum < ev.packet.seqNum)
          && s'.lsas[ev.packet.origin].seqNum == ev.packet.seqNum)
    && (f.Some? && f.value.origin != s.nid ==>
          && accepts && ev.packet.ttl - 1 > 0
          && FloodedBy(f, Ad(ev.packet.ttl - 1, ev.packet.origin, ev.packet.seqNum, ev.packet.body)))
    && (accepts ==> !(f.Some? && f.value.origin == s.nid))
    && (forall dst, pk :: Held(s', dst, pk) > 0 ==>
          || Held(s, dst, pk) > 0
          || (pk.Ad? && FloodedBy(f, pk))
          || (&& !pk.Ad? && ev.Deliver? && ev.packet.Ad? && ev.packet.origin != s.nid
              && pk.origin == ev.packet.origin && pk.origin in s'.lsas && pk.seqNum <= s'.lsas[pk.origin].seqNum))
  }

  lemma HeldFrom(s: Node, ev: Event, dst: Addr, pk: Packet)
    requires Enabled(s, ev) && PendShape(s.pend) && Held(Step(s, ev), dst, pk) > 0
    ensures var s' := Step(s, ev);
          || Held(s, dst, pk) > 0
          || (pk.Ad? && FloodedBy(FloodOf(s, ev), pk))
          || (&& !pk.Ad? && ev.Deliver? && ev.packet.Ad? && ev.packet.origin != s.nid
              && pk.origin == ev.packet.origin && pk.origin in s'.lsas && pk.seqNum <= s'.lsas[pk.origin].seqNum)
  {
    if pk.Ad? {
      Conservation(s, ev, dst, pk);
      if Held(s, dst, pk) == 0 {
        var f := FloodOf(s, ev).value;
        FloodAdsCount(f.nbs, s.nid, f.origin, f.except, f.lsa, s.timers.retran, dst, pk);
      }
    } else {
      StepShape(s, ev);
      OnlyAdsPending(Step(s, ev).pend, dst, pk);
      RepliesOnly(s, ev, dst, pk);
      if Count(s.queue, dst, pk) == 0 {
        ReplyStored(s, ev);
      }
    }
  }

  /** Whatever the reply names is stored afterwards. */
  lemma ReplyStored(s: Node, ev: Event)
    requires Enabled(s, ev) && ev.Deliver? && ev.packet.Ad? && ev.packet.origin != s.nid
    ensures var r, s' := ReplyTo(s, ev.packet), Step(s, ev);
      r.origin == ev.packet.origin && r.origin in s'.lsas && r.seqNum <= s'.lsas[r.origin].seqNum
  {
    if Accepts(s, ev) {
      AcceptEffect(s, ev);
    }
  }

  lemma StepSummary(s: Node, ev: Event)
    requires Enabled(s, ev) && PendShape(s.pend) && s.lsas[s.nid].ttl == LSA_MAX_TTL
    requires Accepts(s, ev) ==> ev.packet.ttl >= 1
    ensures Summary(s, ev, Step(s, ev), Accepts(s, ev), FloodOf(s, ev))
  {
    var s', f := Step(s, ev), FloodOf(s, ev);
    Frame(s, ev);
    StepShape(s, ev);
    OwnNumber(s, ev);
    forall o | o in s'.lsas && o != s.nid
      ensures || (o in s.lsas && s'.lsas[o].seqNum == s.lsas[o].seqNum)
              || (Accepts(s, ev) && ev.Deliver? && ev.packet.origin == o && s'.lsas[o].seqNum == ev.packet.seqNum)
              || (&& ev.Deliver? && ev.packet.Seq? && o == ev.packet.origin && o in s.lsas
                  && s.lsas[o].seqNum < s'.lsas[o].seqNum == ev.packet.seqNum)
    {
      ForeignNumber(s, ev, o);
    }
    if Accepts(s, ev) {
      AcceptEffect(s, ev);
    }
    if f.Some? && f.value.origin != s.nid {
      ForeignFlood(s, ev);
    }
    forall dst, pk | Held(s', dst, pk) > 0
      ensures || Held(s, dst, pk) > 0
              || (pk.Ad? && FloodedBy(f, pk))
              || (&& !pk.Ad? && ev.Deliver? && ev.packet.Ad? && ev.packet.origin != s.nid
                  && pk.origin == ev.packet.origin && pk.origin in s'.lsas && pk.seqNum <= s'.lsas[pk.origin].seqNum)
    {
      HeldFrom(s, ev, dst, pk);
    }
  }
}
