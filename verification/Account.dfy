/** What each event does to a daemon, field by field and entry by entry (src/client_info.c:291-553, 590-715,
    src/lsa.c:27-237, src/sel_timeout.c:42-174). None of it mentions the functions that compute a step. */
module Accounts {
  import opened HashTables
  import opened Types
  import opened Protocol
  import opened Effects
  import opened Steps

  // ---------------------------------------------------------------- parts of a list

  /** The elements that are to be kept, in their order. */
  ghost function Those<T(!new)>(xs: seq<T>, keep: T -> bool): seq<T>
  {
    if xs == [] then [] else (if keep(xs[0]) then [xs[0]] else []) + Those(xs[1..], keep)
  }

  lemma {:induction false} ThoseLast<T(!new)>(xs: seq<T>, keep: T -> bool)
    requires xs != []
    ensures var last := xs[|xs| - 1]; Those(xs, keep) == Those(xs[..|xs| - 1], keep) + if keep(last) then [last] else []
  {
    if |xs| > 1 {
      ThoseLast(xs[1..], keep);
      assert xs[1..][..|xs| - 2] == xs[..|xs| - 1][1..];
    }
  }

  lemma {:induction false} ThoseHas<T(!new)>(xs: seq<T>, keep: T -> bool, i: nat)
    requires i < |xs| && keep(xs[i])
    ensures xs[i] in Those(xs, keep)
  {
    if i > 0 {
      ThoseHas(xs[1..], keep, i - 1);
    }
  }

  // ---------------------------------------------------------------- floods

  /** A line of the neighbour table that is up, is neither the node's own nor the origin's, and is not at the excepted
      address. */
  ghost function Meant(self: nat, origin: nat, except: Option<Addr>): Entry<nat, Neighbour> -> bool
  {
    (nb: Entry<nat, Neighbour>) =>
      nb.val.valid && nb.key != self && nb.key != origin && except != Some(Addr(nb.val.ip, nb.val.rdPort))
  }

  /** `ads` has one entry for each such line; the last line comes first. */
  ghost predicate Flooded(ads: seq<Pending>, nbs: seq<Entry<nat, Neighbour>>, self: nat, origin: nat,
          except: Option<Addr>, retran: int, pk: Packet)
  {
    var lines := Those(nbs, Meant(self, origin, except));
    && |ads| == |lines|
    && forall i :: 0 <= i < |ads| ==>
      var nb := lines[|ads| - 1 - i].val; ads[i] == Pending(Addr(nb.ip, nb.rdPort), retran, pk)
  }

  lemma {:induction false} FloodEach(nbs: seq<Entry<nat, Neighbour>>, self: nat, origin: nat, except: Option<Addr>,
          lsa: Lsa, retran: int)
    ensures Flooded(FloodAds(nbs, self, origin, except, lsa, retran), nbs, self, origin, except, retran,
                    Ad(lsa.ttl, origin, lsa.seqNum, lsa.body))
  {
    if nbs != [] {
      FloodEach(nbs[..|nbs| - 1], self, origin, except, lsa, retran);
      ThoseLast(nbs, Meant(self, origin, except));
    }
  }

  lemma FloodedHas(ads: seq<Pending>, nbs: seq<Entry<nat, Neighbour>>, self: nat, origin: nat,
          except: Option<Addr>, retran: int, pk: Packet, i: nat)
    requires Flooded(ads, nbs, self, origin, except, retran, pk) && i < |nbs| && Meant(self, origin, except)(nbs[i])
    ensures Count(ads, nbs[i].val.Address(), pk) > 0
  {
    var lines := Those(nbs, Meant(self, origin, except));
    ThoseHas(nbs, Meant(self, origin, except), i);
    var k :| 0 <= k < |lines| && lines[k] == nbs[i];
    assert ads[|ads| - 1 - k] == Pending(nbs[i].val.Address(), retran, pk);
    CountAt(ads, |ads| - 1 - k);
  }

  lemma FloodList(s: Node, origin: nat, except: Option<Addr>, lsa: Lsa)
    ensures Flooded(FloodAds(s.nbs, s.nid, origin, except, lsa, s.timers.retran), s.nbs, s.nid, origin, except,
                    s.timers.retran, Ad(lsa.ttl, origin, lsa.seqNum, lsa.body))
  {
    FloodEach(s.nbs, s.nid, origin, except, lsa, s.timers.retran);
  }

  // ---------------------------------------------------------------- the own LSA

  ghost function Live(self: nat): Entry<nat, Neighbour> -> bool
  {
    (nb: Entry<nat, Neighbour>) => nb.key != self && nb.val.valid
  }

  /** The links are the lines that are up but for the own one, in their order. */
  ghost predicate LinesUp(links: seq<nat>, nbs: seq<Entry<nat, Neighbour>>, self: nat)
  {
    var lines := Those(nbs, Live(self));
    |links| == |lines| && forall i :: 0 <= i < |links| ==> links[i] == lines[i].key
  }

  /** An LSA that has just been made from the neighbours and files of s. */
  ghost predicate Rebuilt(lsa: Lsa, s: Node)
  {
    && lsa.valid && lsa.timeLeft == s.timers.lsa && lsa.ttl == 32 && lsa.body.objs == s.files
    && LinesUp(lsa.body.links, s.nbs, s.nid)
  }

  lemma {:induction false} LinesAre(nbs: seq<Entry<nat, Neighbour>>, self: nat)
    ensures LinesUp(LiveLinks(nbs, self), nbs, self)
  {
    if nbs != [] {
      LinesAre(nbs[..|nbs| - 1], self);
      ThoseLast(nbs, Live(self));
    }
  }

  lemma ReloadAccount(s: Node)
    requires s.nid in s.lsas
    ensures Rebuilt(Reload(s).lsas[s.nid], s) && Reload(s).lsas[s.nid].seqNum == s.lsas[s.nid].seqNum
    ensures Reload(s) == s.(lsas := s.lsas[s.nid := Reload(s).lsas[s.nid]])
  {
    LinesAre(s.nbs, s.nid);
  }

  // ---------------------------------------------------------------- an advertisement arrives

  /** The number is above what is stored, or nothing is stored. */
  ghost predicate Above(s: Node, o: nat, q: nat)
  {
    o in s.lsas ==> s.lsas[o].seqNum < q
  }

  /** An own advertisement that comes back is dropped. */
  lemma OwnAdAccount(s: Node, ev: Event)
    requires Enabled(s, ev) && ev.Deliver? && ev.packet.Ad? && ev.packet.origin == s.nid
    ensures Step(s, ev) == s
  {
  }

  /** What the sender is told: an advertisement numbered 0 is answered by the stored number, valid or not, if that is
      above 0; any other one is acknowledged. */
  ghost function Told(s: Node, o: nat, q: nat): Packet
  {
    if q == 0 && o in s.lsas && s.lsas[o].seqNum > 0 then Seq(o, s.lsas[o].seqNum) else Ack(o, q)
  }

  /** The send list afterwards: the reply first, then the flood, if the advertisement is new and has a hop left. */
  lemma AdLists(s: Node, ev: Event) returns (ads: seq<Pending>)
    requires Enabled(s, ev) && ev.Deliver? && ev.packet.Ad? && ev.packet.origin != s.nid
    ensures var Ad(ttl, o, q, b), s' := ev.packet, Step(s, ev);
      && s'.queue == [Pending(ev.from, 0, Told(s, o, q))] + ads + s.queue && s'.made == ads + s.made
      && s'.pend == s.pend && s'.advLeft == s.advLeft && s'.files == s.files
      && if Above(s, o, q) && ttl > 1 then
           Flooded(ads, s'.nbs, s.nid, o, Some(ev.from), s.timers.retran, Ad(ttl - 1, o, q, b))
         else ads == []
  {
    ads := NewAds(s, ev);
    RecvAdQueue(s, ev);
    Frame(s, ev);
    assert [Pending(ev.from, 0, ReplyTo(s, ev.packet))] + (ads + s.queue) ==
           [Pending(ev.from, 0, ReplyTo(s, ev.packet))] + ads + s.queue;
    if FloodOf(s, ev).Some? {
      var f := FloodOf(s, ev).value;
      FloodList(s.(nbs := f.nbs), f.origin, f.except, f.lsa);
      AdFloodFacts(s, ev);
    }
  }

  /** The first entry of the send list afterwards: a report of the stored number exactly for an advertisement that is
      numbered 0 while a number above 0 is stored, be that LSA valid or not, and an acknowledgement otherwise. */
  lemma ReplyExactly(s: Node, ev: Event, n: nat)
    requires Enabled(s, ev) && ev.Deliver? && ev.packet.Ad? && ev.packet.origin != s.nid
    ensures var Ad(_, o, q, _), queue := ev.packet, Step(s, ev).queue;
      && queue != []
      && (queue[0] == Pending(ev.from, 0, Seq(o, n)) <==> q == 0 && o in s.lsas && s.lsas[o].seqNum == n > 0)
      && (queue[0] == Pending(ev.from, 0, Ack(o, q)) <==> !(q == 0 && o in s.lsas && s.lsas[o].seqNum > 0))
  {
    var ads := AdLists(s, ev);
  }

  lemma AdFloodFacts(s: Node, ev: Event)
    requires Enabled(s, ev) && ev.Deliver? && ev.packet.Ad? && FloodOf(s, ev).Some?
    ensures var f, Ad(ttl, o, q, b) := FloodOf(s, ev).value, ev.packet;
      && f.nbs == Step(s, ev).nbs && f.origin == o && f.except == Some(ev.from)
      && f.lsa.ttl == ttl - 1 && f.lsa.seqNum == q && f.lsa.body == b
  {
    AcceptEffect(s, ev);
  }

  /** A known number changes nothing but the send list. */
  lemma OldAdAccount(s: Node, ev: Event)
    requires Enabled(s, ev) && ev.Deliver? && ev.packet.Ad? && ev.packet.origin != s.nid
    requires !Above(s, ev.packet.origin, ev.packet.seqNum)
    ensures Step(s, ev) == s.(queue := Step(s, ev).queue)
  {
  }

  /** A new one is stored with one hop less and a full life, its node is up from then on, and its objects lead to it. A
      neighbour that comes up again changes the own LSA. */
  lemma NewAdAccount(s: Node, ev: Event)
    requires Enabled(s, ev) && ev.Deliver? && ev.packet.Ad? && ev.packet.origin != s.nid
    requires Above(s, ev.packet.origin, ev.packet.seqNum)
    ensures var Ad(ttl, o, q, b), s' := ev.packet, Step(s, ev);
      var isNb := exists i :: 0 <= i < |s.nbs| && s.nbs[i].key == o;
      var wasDown := exists i :: 0 <= i < |s.nbs| && s.nbs[i].key == o && !s.nbs[i].val.valid;
      && s'.lsas.Keys == s.lsas.Keys + {o}
      && s'.lsas[o] == Lsa(true, if isNb then s.timers.nb else s.timers.lsa, if ttl == 0 then 255 else ttl - 1, q, b)
      && (forall k :: k in s.lsas && k != o && k != s.nid ==> s'.lsas[k] == s.lsas[k])
      && (if wasDown then Rebuilt(s'.lsas[s.nid], s') && s'.lsas[s.nid].seqNum == s.lsas[s.nid].seqNum
          else s'.lsas[s.nid] == s.lsas[s.nid])
  {
    var s1 := Learn(s, ev.packet);
    ReloadAccount(s1.(nbs := SetValid(s1.nbs, {ev.packet.origin}, true)));
    NewAdIs(s, ev);
  }

  lemma NewAdIs(s: Node, ev: Event)
    requires Enabled(s, ev) && ev.Deliver? && ev.packet.Ad? && ev.packet.origin != s.nid
    requires Above(s, ev.packet.origin, ev.packet.seqNum)
    ensures var s2, s' := Revive(Learn(s, ev.packet), ev.packet.origin), Step(s, ev);
      s'.lsas == s2.lsas && s'.nbs == s2.nbs && s'.dir == s2.dir && s'.files == s2.files && s'.timers == s2.timers
      && s'.nid == s2.nid
  {
    assert Accepts(s, ev);
  }

  lemma NewAdNbs(s: Node, ev: Event)
    requires Enabled(s, ev) && ev.Deliver? && ev.packet.Ad? && ev.packet.origin != s.nid
    requires Above(s, ev.packet.origin, ev.packet.seqNum)
    ensures var o, s' := ev.packet.origin, Step(s, ev);
      && |s'.nbs| == |s.nbs|
      && forall i :: 0 <= i < |s.nbs| ==>
        s'.nbs[i] == Entry(s.nbs[i].key, s.nbs[i].val.(valid := s.nbs[i].val.valid || s.nbs[i].key == o))
  {
    NewAdIs(s, ev);
  }

  lemma NewAdDir(s: Node, ev: Event)
    requires Enabled(s, ev) && ev.Deliver? && ev.packet.Ad? && ev.packet.origin != s.nid
    requires Above(s, ev.packet.origin, ev.packet.seqNum)
    ensures Gained(s.dir, Step(s, ev).dir, ev.packet.origin, ev.packet.body.objs)
  {
    NewAdIs(s, ev);
    AddObjsGain(s.dir, ev.packet.body.objs, ev.packet.origin);
  }

  /** The objects lead to n as well, and nothing else changes. */
  ghost predicate Gained(dir: map<string, set<nat>>, dir': map<string, set<nat>>, n: nat, objs: seq<string>)
  {
    forall o :: (o in dir' <==> o in dir || o in objs) &&
      (o in dir' ==> dir'[o] == (if o in dir then dir[o] else {}) + if o in objs then {n} else {})
  }

  lemma {:induction false} AddObjsGain(dir: map<string, set<nat>>, objs: seq<string>, n: nat)
    ensures Gained(dir, AddObjs(dir, objs, n), n, objs)
  {
    if objs != [] {
      AddObjsGain(dir, objs[..|objs| - 1], n);
    }
  }

  // ---------------------------------------------------------------- an acknowledgement or a sequence report arrives

  /** Behind an entry of o, or itself one, with this number and address. */
  ghost predicate Named(chain: seq<Pending>, i: nat, o: nat, q: nat, from: Addr)
    requires i < |chain|
  {
    chain[i].packet.seqNum == q && chain[i].dst == from && exists j :: 0 <= j <= i && chain[j].packet.origin == o
  }

  /** The first such entry goes, and no other. */
  ghost predicate Struck(chain: seq<Pending>, chain': seq<Pending>, o: nat, q: nat, from: Addr)
  {
    || (chain' == chain && forall i :: 0 <= i < |chain| ==> !Named(chain, i, o, q, from))
    || exists i :: 0 <= i < |chain| && Named(chain, i, o, q, from) && chain' == chain[..i] + chain[i + 1..]
         && forall j :: 0 <= j < i ==> !Named(chain, j, o, q, from)
  }

  ghost predicate StruckIn(pend: seq<seq<Pending>>, pend': seq<seq<Pending>>, o: nat, q: nat, from: Addr)
  {
    && |pend| == |pend'| == 50 && Struck(pend[o % 50], pend'[o % 50], o, q, from)
    && forall b :: 0 <= b < 50 && b != o % 50 ==> pend'[b] == pend[b]
  }

  lemma RemoveStrikes(pend: seq<seq<Pending>>, o: nat, q: nat, from: Addr)
    requires |pend| == PEND_ACK_BUCKET_SIZE
    ensures StruckIn(pend, RemoveAck(pend, o, q, from), o, q, from)
  {
    var chain := pend[o % 50];
    var a := FirstFrom(chain, 0, o);
    var i := FirstExact(chain, a, q, from);
    forall j | 0 <= j < i
      ensures !Named(chain, j, o, q, from)
    {
    }
    if i < |chain| {
      assert Named(chain, i, o, q, from);
    }
  }

  lemma AckAccount(s: Node, ev: Event)
    requires Enabled(s, ev) && ev.Deliver? && ev.packet.Ack?
    ensures var s' := Step(s, ev);
      s' == s.(pend := s'.pend) && StruckIn(s.pend, s'.pend, ev.packet.origin, ev.packet.seqNum, ev.from)
  {
    RemoveStrikes(s.pend, ev.packet.origin, ev.packet.seqNum, ev.from);
  }

  /** A report about another node takes away the advertisement numbered 0, and raises the stored number. */
  lemma SeqAccount(s: Node, ev: Event)
    requires Enabled(s, ev) && ev.Deliver? && ev.packet.Seq? && ev.packet.origin != s.nid
    ensures var Seq(o, n), s' := ev.packet, Step(s, ev);
      && s' == s.(pend := s'.pend, lsas := s'.lsas) && StruckIn(s.pend, s'.pend, o, 0, ev.from)
      && s'.lsas.Keys == s.lsas.Keys
      && forall k :: k in s.lsas ==>
        s'.lsas[k] == if k == o && s.lsas[k].seqNum < n then s.lsas[k].(seqNum := n) else s.lsas[k]
  {
    RemoveStrikes(s.pend, ev.packet.origin, 0, ev.from);
  }

  /** One about the node itself makes it flood one number above, if its next number is not above the report yet. */
  lemma OwnSeqAccount(s: Node, ev: Event) returns (ads: seq<Pending>)
    requires Enabled(s, ev) && ev.Deliver? && ev.packet.Seq? && ev.packet.origin == s.nid
    ensures var n, s', own := ev.packet.seqNum, Step(s, ev), s.lsas[s.nid];
      && StruckIn(s.pend, s'.pend, s.nid, 0, ev.from) && s'.queue == ads + s.queue && s'.made == ads + s.made
      && s'.nbs == s.nbs && s'.dir == s.dir && s'.files == s.files && s'.timers == s.timers && s'.nid == s.nid
      && if own.seqNum <= n then
           && Flooded(ads, s.nbs, s.nid, s.nid, None, s.timers.retran, Ad(own.ttl, s.nid, n + 1, own.body))
           && s'.advLeft == s.timers.adv && s'.lsas == s.lsas[s.nid := own.(seqNum := n + 2)]
         else ads == [] && s'.advLeft == s.advLeft && s'.lsas == s.lsas
  {
    ads := NewAds(s, ev);
    SeqLists(s, ev);
    Frame(s, ev);
    RemoveStrikes(s.pend, s.nid, 0, ev.from);
    if FloodOf(s, ev).Some? {
      FloodList(s, s.nid, None, FloodOf(s, ev).value.lsa);
    }
  }

  // ---------------------------------------------------------------- the send list is sent

  ghost function AdIn(b: nat): Pending -> bool
  {
    (p: Pending) => p.packet.Ad? && p.packet.origin % 50 == b
  }

  ghost function Reversed(xs: seq<Pending>): seq<Pending>
  {
    if xs == [] then [] else Reversed(xs[1..]) + [xs[0]]
  }

  lemma {:induction false} ReversedLast(xs: seq<Pending>, x: Pending)
    ensures Reversed(xs + [x]) == [x] + Reversed(xs)
  {
    if xs != [] {
      ReversedLast(xs[1..], x);
      assert (xs + [x])[1..] == xs[1..] + [x];
    }
  }

  lemma {:induction false} PendAllPosts(pend: seq<seq<Pending>>, queue: seq<Pending>, b: nat)
    requires |pend| == PEND_ACK_BUCKET_SIZE && b < |pend|
    ensures PendAll(pend, queue)[b] == Reversed(Those(queue, AdIn(b))) + pend[b]
  {
    if queue != [] {
      var p, rest := queue[|queue| - 1], queue[..|queue| - 1];
      PendAllPosts(pend, rest, b);
      ThoseLast(queue, AdIn(b));
      var those := Those(rest, AdIn(b));
      assert those + [] == those;
      ReversedLast(those, p);
    }
  }

  /** Everything leaves the send list, and its advertisements head their buckets unchanged, the last one first. */
  lemma SendAccount(s: Node, ev: Event, b: nat)
    requires Enabled(s, ev) && ev.SendAll? && b < 50
    ensures var s' := Step(s, ev);
      && s' == s.(queue := [], pend := s'.pend) && |s'.pend| == 50
      && s'.pend[b] == Reversed(Those(s.queue, AdIn(b))) + s.pend[b]
  {
    PendAllPosts(s.pend, s.queue, b);
  }

  // ---------------------------------------------------------------- a tick

  /** The valid LSA of another node whose life ends with this tick. */
  ghost predicate Dies(s: Node, elapsed: int, k: nat)
  {
    k in s.lsas && k != s.nid && s.lsas[k].valid && s.lsas[k].timeLeft < elapsed
  }

  ghost predicate NbDies(s: Node, elapsed: int)
  {
    exists i :: 0 <= i < |s.nbs| && Dies(s, elapsed, s.nbs[i].key)
  }

  ghost predicate DiesAt(s: Node, elapsed: int, dst: Addr)
  {
    exists i :: 0 <= i < |s.nbs| && Dies(s, elapsed, s.nbs[i].key) && s.nbs[i].val.ip == dst.ip
      && s.nbs[i].val.rdPort == dst.port
  }

  /** LSAs, neighbours and directory after a tick. */
  lemma TickTables(s: Node, ev: Event)
    requires Enabled(s, ev) && ev.Tick?
    ensures var e, s' := ev.elapsed, Step(s, ev);
      && s'.nid == s.nid && s'.timers == s.timers && s'.files == s.files && s'.lsas.Keys == s.lsas.Keys
      && (forall k :: k in s.lsas && k != s.nid ==> s'.lsas[k] == if !s.lsas[k].valid then s.lsas[k] else
        s.lsas[k].(timeLeft := s.lsas[k].timeLeft - e, valid := s.lsas[k].timeLeft >= e))
      && |s'.nbs| == |s.nbs|
      && forall i :: 0 <= i < |s.nbs| ==>
        s'.nbs[i] == Entry(s.nbs[i].key, s.nbs[i].val.(valid := s.nbs[i].val.valid && !Dies(s, e, s.nbs[i].key)))
  {
    var s2 := AfterExpiry(s, ev.elapsed);
    assert Step(s, ev).nbs == s2.nbs;
  }

  lemma TickDir(s: Node, ev: Event)
    requires Enabled(s, ev) && ev.Tick?
    ensures Step(s, ev).dir.Keys == s.dir.Keys
    ensures forall o, n :: o in s.dir ==>
      (n in Step(s, ev).dir[o] <==> n in s.dir[o] && !(Dies(s, ev.elapsed, n) && o in s.lsas[n].body.objs))
  {
    assert Step(s, ev).dir == AgeLsas(s, ev.elapsed).dir;
  }

  /** Own LSA and advertisement timer after a tick: the node floods its LSA if a neighbour has gone down or the timer
      has run out, and with that the timer starts again. */
  lemma TickOwnLsa(s: Node, ev: Event)
    requires Enabled(s, ev) && ev.Tick?
    ensures var e, s' := ev.elapsed, Step(s, ev);
      var own, own' := s.lsas[s.nid], s'.lsas[s.nid];
      && (if NbDies(s, e) then Rebuilt(own', s') else own' == own.(seqNum := own'.seqNum))
      && if NbDies(s, e) || s.advLeft < e then own'.seqNum == own.seqNum + 1 && s'.advLeft == s.timers.adv
         else own'.seqNum == own.seqNum && s'.advLeft == s.advLeft - e
  {
    var s1 := AgeLsas(s, ev.elapsed);
    ReloadAccount(s1);
    NbDiesIs(s, ev.elapsed);
    var s2 := AfterExpiry(s, ev.elapsed);
    assert s2.lsas[s.nid].seqNum == s.lsas[s.nid].seqNum;
  }

  lemma NbDiesIs(s: Node, elapsed: int)
    ensures NbDies(s, elapsed) <==> NbExpires(s, elapsed)
  {
    assert forall k: nat :: k in Expired(s, elapsed) <==> Dies(s, elapsed, k);
  }

  ghost function InTime(gone: set<Addr>, elapsed: int): Pending -> bool
  {
    (p: Pending) => p.dst !in gone && p.timeLeft >= elapsed
  }

  ghost function TooLate(gone: set<Addr>, elapsed: int): Pending -> bool
  {
    (p: Pending) => p.dst !in gone && p.timeLeft < elapsed
  }

  /** The entries of a chain that go on waiting, in their order. */
  ghost predicate Staying(out: seq<Pending>, chain: seq<Pending>, gone: set<Addr>, elapsed: int)
  {
    var those := Those(chain, InTime(gone, elapsed));
    |out| == |those| && forall i :: 0 <= i < |out| ==> out[i] == those[i].(timeLeft := those[i].timeLeft - elapsed)
  }

  /** Those that are overdue, the last one first, with a full interval. */
  ghost predicate Returning(out: seq<Pending>, chain: seq<Pending>, gone: set<Addr>, elapsed: int, retran: int)
  {
    var those := Those(chain, TooLate(gone, elapsed));
    |out| == |those| && forall i :: 0 <= i < |out| ==> out[i] == those[|out| - 1 - i].(timeLeft := retran)
  }

  lemma {:induction false} ChainStays(chain: seq<Pending>, gone: set<Addr>, elapsed: int)
    ensures Staying(Waiting(NotTo(chain, gone), elapsed), chain, gone, elapsed)
  {
    if chain != [] {
      var p, kept := chain[|chain| - 1], NotTo(chain[..|chain| - 1], gone);
      ChainStays(chain[..|chain| - 1], gone, elapsed);
      ThoseLast(chain, InTime(gone, elapsed));
      assert (kept + [p])[..|kept|] == kept && kept + [] == kept;
    }
  }

  lemma {:induction false} ChainReturns(chain: seq<Pending>, gone: set<Addr>, elapsed: int, retran: int)
    ensures Returning(Overdue(NotTo(chain, gone), elapsed, retran), chain, gone, elapsed, retran)
  {
    if chain != [] {
      var p, kept := chain[|chain| - 1], NotTo(chain[..|chain| - 1], gone);
      ChainReturns(chain[..|chain| - 1], gone, elapsed, retran);
      var out := Overdue(kept, elapsed, retran);
      assert (kept + [p])[..|kept|] == kept && kept + [] == kept && [] + out == out;
      ReturnsNext(out, chain, gone, elapsed, retran);
    }
  }

  lemma ReturnsNext(out: seq<Pending>, chain: seq<Pending>, gone: set<Addr>, elapsed: int, retran: int)
    requires chain != [] && Returning(out, chain[..|chain| - 1], gone, elapsed, retran)
    ensures var p := chain[|chain| - 1]; var late := p.dst !in gone && p.timeLeft < elapsed;
      Returning((if late then [p.(timeLeft := retran)] else []) + out, chain, gone, elapsed, retran)
  {
    ThoseLast(chain, TooLate(gone, elapsed));
  }

  /** The parts of a list one behind the other, the last one first. */
  ghost function Backwards(parts: seq<seq<Pending>>): seq<Pending>
  {
    if parts == [] then [] else Backwards(parts[1..]) + parts[0]
  }

  lemma {:induction false} BackwardsLast(parts: seq<seq<Pending>>)
    requires parts != []
    ensures Backwards(parts) == parts[|parts| - 1] + Backwards(parts[..|parts| - 1])
  {
    if |parts| > 1 {
      BackwardsLast(parts[1..]);
      assert parts[1..][..|parts| - 2] == parts[..|parts| - 1][1..];
    }
  }

  lemma {:induction false} OverdueParts(pend: seq<seq<Pending>>, elapsed: int, retran: int, parts: seq<seq<Pending>>)
    requires |parts| == |pend| && forall b :: 0 <= b < |pend| ==> parts[b] == Overdue(pend[b], elapsed, retran)
    ensures AllOverdue(pend, elapsed, retran) == Backwards(parts)
  {
    if pend != [] {
      BackwardsLast(parts);
      OverdueParts(pend[..|pend| - 1], elapsed, retran, parts[..|pend| - 1]);
    }
  }

  /** Send list and pending table after a tick: what is for a neighbour that has gone down is dropped; what is overdue
      goes in front of the send list, before the flood; the rest waits on. */
  lemma TickLists(s: Node, ev: Event) returns (gone: set<Addr>, again: seq<seq<Pending>>, ads: seq<Pending>)
    requires Enabled(s, ev) && ev.Tick?
    ensures var e, s' := ev.elapsed, Step(s, ev);
      && s'.queue == Backwards(again) + ads + s.queue && s'.made == ads + s.made && |again| == |s'.pend| == |s.pend|
      && (forall dst :: dst in gone <==> DiesAt(s, e, dst))
      && (forall b :: 0 <= b < |s.pend| ==> TickedAt(s.pend[b], s'.pend[b], again[b], gone, e, s.timers.retran))
      && if NbDies(s, e) || s.advLeft < e then
           var own := s'.lsas[s.nid];
           Flooded(ads, s'.nbs, s.nid, s.nid, None, s.timers.retran, Ad(own.ttl, s.nid, own.seqNum - 1, own.body))
         else ads == []
  {
    gone, again := TickPend(s, ev);
    ads := NewAds(s, ev);
    Frame(s, ev);
    NbDiesIs(s, ev.elapsed);
    TickFloodIs(s, ev);
  }

  lemma TickPend(s: Node, ev: Event) returns (gone: set<Addr>, again: seq<seq<Pending>>)
    requires Enabled(s, ev) && ev.Tick?
    ensures var e, s' := ev.elapsed, Step(s, ev);
      && s'.queue == Backwards(again) + NewAds(s, ev) + s.queue && |again| == |s'.pend| == |s.pend|
      && (forall dst :: dst in gone <==> DiesAt(s, e, dst))
      && forall b :: 0 <= b < |s.pend| ==> TickedAt(s.pend[b], s'.pend[b], again[b], gone, e, s.timers.retran)
  {
    var e, retran := ev.elapsed, s.timers.retran;
    gone := AddrsOf(s.nbs, Expired(s, e));
    again := seq(|s.pend|, b requires 0 <= b < |s.pend| => Overdue(NotTo(s.pend[b], gone), e, retran));
    TickQueueIs(s, ev, again);
    forall b: nat | b < |s.pend|
      ensures b < |Step(s, ev).pend| && TickedAt(s.pend[b], Step(s, ev).pend[b], again[b], gone, e, retran)
    {
      TickPendIs(s, ev, b);
      ChainTicks(s.pend[b], gone, e, retran);
    }
    TickPendSize(s, ev);
  }

  lemma TickPendSize(s: Node, ev: Event)
    requires Enabled(s, ev) && ev.Tick?
    ensures |Step(s, ev).pend| == |s.pend|
  {
  }

  /** What of a chain stays and what returns to the send list. */
  ghost predicate TickedAt(chain: seq<Pending>, chain': seq<Pending>, again: seq<Pending>, gone: set<Addr>,
          elapsed: int, retran: int)
  {
    Staying(chain', chain, gone, elapsed) && Returning(again, chain, gone, elapsed, retran)
  }

  lemma ChainTicks(chain: seq<Pending>, gone: set<Addr>, elapsed: int, retran: int)
    ensures TickedAt(chain, Waiting(NotTo(chain, gone), elapsed), Overdue(NotTo(chain, gone), elapsed, retran), gone,
                     elapsed, retran)
  {
    ChainStays(chain, gone, elapsed);
    ChainReturns(chain, gone, elapsed, retran);
  }

  lemma TickPendIs(s: Node, ev: Event, b: nat)
    requires Enabled(s, ev) && ev.Tick? && b < |s.pend|
    ensures |Step(s, ev).pend| == |s.pend|
    ensures Step(s, ev).pend[b] == Waiting(NotTo(s.pend[b], AddrsOf(s.nbs, Expired(s, ev.elapsed))), ev.elapsed)
  {
  }

  lemma TickQueueIs(s: Node, ev: Event, again: seq<seq<Pending>>)
    requires Enabled(s, ev) && ev.Tick? && |again| == |s.pend|
    requires forall b :: 0 <= b < |s.pend| ==>
      again[b] == Overdue(NotTo(s.pend[b], AddrsOf(s.nbs, Expired(s, ev.elapsed))), ev.elapsed, s.timers.retran)
    ensures Step(s, ev).queue == Backwards(again) + NewAds(s, ev) + s.queue
  {
    hide Step, NewAds, Retransmit;
    var mid := TickMid(s, ev);
    OverdueParts(mid.pend, ev.elapsed, s.timers.retran, again);
    RetransmitQueue(mid, ev.elapsed);
    Joined(Backwards(again), NewAds(s, ev), s.queue);
  }

  lemma RetransmitQueue(s: Node, elapsed: int)
    ensures Retransmit(s, elapsed).queue == AllOverdue(s.pend, elapsed, s.timers.retran) + s.queue
  {
  }

  lemma Joined(a: seq<Pending>, b: seq<Pending>, c: seq<Pending>)
    ensures a + (b + c) == a + b + c
  {
  }

  /** The state in which process_retran_timeout begins. */
  lemma TickMid(s: Node, ev: Event) returns (mid: Node)
    requires Enabled(s, ev) && ev.Tick?
    ensures Step(s, ev) == Retransmit(mid, ev.elapsed) && mid.queue == NewAds(s, ev) + s.queue && mid.timers == s.timers
    ensures |mid.pend| == |s.pend| && forall b :: 0 <= b < |s.pend| ==>
      mid.pend[b] == NotTo(s.pend[b], AddrsOf(s.nbs, Expired(s, ev.elapsed)))
  {
    var s2 := AfterExpiry(s, ev.elapsed);
    mid := if FloodOf(s, ev).Some? then Advertise(s2) else s2;
    assert [] + s.queue == s.queue;
  }

  lemma TickFloodIs(s: Node, ev: Event)
    requires Enabled(s, ev) && ev.Tick?
    ensures FloodOf(s, ev).Some? <==> NbExpires(s, ev.elapsed) || s.advLeft < ev.elapsed
    ensures FloodOf(s, ev).Some? ==> var own, s' := Step(s, ev).lsas[s.nid], Step(s, ev);
      own.seqNum > 0 &&
      Flooded(NewAds(s, ev), s'.nbs, s.nid, s.nid, None, s.timers.retran, Ad(own.ttl, s.nid, own.seqNum - 1, own.body))
  {
    var s2 := AfterExpiry(s, ev.elapsed);
    if FloodOf(s, ev).Some? {
      FloodList(s2, s.nid, None, s2.lsas[s.nid]);
    }
  }

  // ---------------------------------------------------------------- a file is added

  /** A known name changes nothing; a new one is flooded in a new own LSA, and its objects lead to the node. */
  lemma FileAccount(s: Node, ev: Event) returns (ads: seq<Pending>)
    requires Enabled(s, ev) && ev.AddFile?
    ensures var s' := Step(s, ev);
      if ev.name in s.files then s' == s && ads == [] else
        var own := s'.lsas[s.nid];
        && s'.files == ev.filesAfter && s'.nbs == s.nbs && s'.pend == s.pend && s'.timers == s.timers
        && s'.nid == s.nid && s'.lsas == s.lsas[s.nid := own] && Rebuilt(own, s')
        && own.seqNum == s.lsas[s.nid].seqNum + 1 && s'.advLeft == s.timers.adv
        && s'.queue == ads + s.queue && s'.made == ads + s.made && Gained(s.dir, s'.dir, s.nid, ev.filesAfter)
        && Flooded(ads, s.nbs, s.nid, s.nid, None, s.timers.retran, Ad(32, s.nid, own.seqNum - 1, own.body))
  {
    ads := NewAds(s, ev);
    if ev.name !in s.files {
      var s1 := s.(files := ev.filesAfter);
      ReloadAccount(s1);
      AddObjsGain(s.dir, ev.filesAfter, s.nid);
      FloodList(s, s.nid, None, FloodOf(s, ev).value.lsa);
    }
  }

  // ---------------------------------------------------------------- the start

  /** The state before the event loop: the own LSA numbered 0 is queued for everybody, and the next number is 1. */
  lemma BootAccount(nid: nat, timers: Timers, nbs: seq<Entry<nat, Neighbour>>, files: seq<string>)
    ensures var s := Boot(nid, timers, nbs, files);
      && s.nid == nid && s.timers == timers && s.nbs == nbs && s.files == files && s.lsas.Keys == {nid}
      && Rebuilt(s.lsas[nid], s) && s.lsas[nid].seqNum == 1 && s.advLeft == timers.adv && s.made == s.queue
      && |s.pend| == 50 && (forall b :: 0 <= b < 50 ==> s.pend[b] == []) && Gained(map[], s.dir, nid, files)
      && Flooded(s.queue, nbs, nid, nid, None, timers.retran, Ad(32, nid, 0, s.lsas[nid].body))
  {
    LinesAre(nbs, nid);
    AddObjsGain(map[], files, nid);
    var s := Boot(nid, timers, nbs, files);
    FloodList(s, nid, None, s.lsas[nid].(seqNum := 0));
    var ads := FloodAds(nbs, nid, nid, None, s.lsas[nid].(seqNum := 0), timers.retran);
    assert ads + [] == ads;
  }

  // ---------------------------------------------------------------- who gets a new advertisement

  ghost predicate AddrsDiffer(nbs: seq<Entry<nat, Neighbour>>)
  {
    forall i, j :: 0 <= i < j < |nbs| ==> nbs[i].val.ip != nbs[j].val.ip || nbs[i].val.rdPort != nbs[j].val.rdPort
  }

  /** At this address there is a neighbour that is up, and is neither the node itself nor the origin. */
  ghost predicate UpAt(nbs: seq<Entry<nat, Neighbour>>, self: nat, origin: nat, at: Addr)
  {
    exists i :: 0 <= i < |nbs| && nbs[i].val.valid && nbs[i].key != self && nbs[i].key != origin
      && nbs[i].val.ip == at.ip && nbs[i].val.rdPort == at.port
  }

  /** The event makes this advertisement for this address: a new foreign one with a hop left goes to everybody but the
      origin and whom it came from, an own one to everybody. */
  ghost predicate Makes(s: Node, ev: Event, at: Addr, pk: Packet)
    requires Enabled(s, ev)
  {
    var nbs, own, own' := Step(s, ev).nbs, s.lsas[s.nid], Step(s, ev).lsas[s.nid];
    match ev
    case Deliver(Ad(ttl, o, q, b), from) =>
      o != s.nid && Above(s, o, q) && ttl > 1 && pk == Ad(ttl - 1, o, q, b) && at != from && UpAt(nbs, s.nid, o, at)
    case Deliver(Seq(o, n), _) =>
      o == s.nid && own.seqNum <= n && pk == Ad(32, o, n + 1, own.body) && UpAt(nbs, o, o, at)
    case Tick(elapsed) =>
      && (s.advLeft < elapsed || NbDies(s, elapsed))
      && pk == Ad(32, s.nid, own.seqNum, own'.body) && UpAt(nbs, s.nid, s.nid, at)
    case AddFile(name, _) =>
      name !in s.files && pk == Ad(32, s.nid, own.seqNum, own'.body) && UpAt(nbs, s.nid, s.nid, at)
    case _ => false
  }

  /** What an event has flooded, in the terms of the flood that it runs. */
  ghost predicate FloodsAs(s: Node, ev: Event, at: Addr, pk: Packet)
    requires Enabled(s, ev)
  {
    && FloodOf(s, ev).Some?
    && var f := FloodOf(s, ev).value;
      pk == f.Packet() && f.except != Some(at) && UpAt(f.nbs, s.nid, f.origin, at)
  }

  lemma MakesAs(s: Node, ev: Event, at: Addr, pk: Packet)
    requires Enabled(s, ev) && s.lsas[s.nid].ttl == LSA_MAX_TTL
    ensures Makes(s, ev, at, pk) <==> FloodsAs(s, ev, at, pk)
  {
    match ev
    case Tick(e) => MakesTick(s, ev, at, pk);
    case Deliver(Ad(_, o, _, _), _) =>
      if FloodOf(s, ev).Some? {
        AdFloodFacts(s, ev);
      }
    case _ =>
  }

  lemma MakesTick(s: Node, ev: Event, at: Addr, pk: Packet)
    requires Enabled(s, ev) && ev.Tick? && s.lsas[s.nid].ttl == LSA_MAX_TTL
    ensures Makes(s, ev, at, pk) <==> FloodsAs(s, ev, at, pk)
  {
    NbDiesIs(s, ev.elapsed);
    var s2 := AfterExpiry(s, ev.elapsed);
    assert s2.lsas[s.nid].seqNum == s.lsas[s.nid].seqNum && s2.lsas[s.nid].ttl == LSA_MAX_TTL;
    assert FloodOf(s, ev).Some? ==> s2.lsas[s.nid].body == Step(s, ev).lsas[s.nid].body && s2.nbs == Step(s, ev).nbs;
  }

  lemma NewAdsCount(s: Node, ev: Event, at: Addr, pk: Packet)
    requires Enabled(s, ev) && AddrsDiffer(s.nbs)
    ensures Count(NewAds(s, ev), at, pk) == if FloodsAs(s, ev, at, pk) then 1 else 0
  {
    if FloodOf(s, ev).Some? {
      var f := FloodOf(s, ev).value;
      Frame(s, ev);
      forall i, j | 0 <= i < j < |f.nbs|
        ensures f.nbs[i].val.Address() != f.nbs[j].val.Address()
      {
        assert s.nbs[i].val.Address() != s.nbs[j].val.Address();
      }
      FloodAdsCount(f.nbs, s.nid, f.origin, f.except, f.lsa, s.timers.retran, at, pk);
      TargetsOnce(f.nbs, s.nid, f.origin, f.except, at);
    }
  }

  /** An event makes an advertisement for an address once or not at all, and makes no other; what it makes it also
      holds, and it drops nothing that it held unless it is an answer or a tick. */
  lemma MakesExactly(s: Node, ev: Event, at: Addr, pk: Packet)
    requires Enabled(s, ev) && AddrsDiffer(s.nbs) && s.lsas[s.nid].ttl == 32 && pk.Ad?
    ensures Count(Step(s, ev).made, at, pk) == Count(s.made, at, pk) + if Makes(s, ev, at, pk) then 1 else 0
    ensures ev.AddFile? || ev.SendAll? || (ev.Deliver? && ev.packet.Ad?) ==>
      Held(Step(s, ev), at, pk) == Held(s, at, pk) + if Makes(s, ev, at, pk) then 1 else 0
  {
    MakesAs(s, ev, at, pk);
    NewAdsCount(s, ev, at, pk);
    Frame(s, ev);
    CountAppend(NewAds(s, ev), s.made, at, pk);
    Conservation(s, ev, at, pk);
  }
}
