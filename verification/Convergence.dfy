/** What the nodes of a network come to know: exact directories in every run, one common map and directory once the
    flooding is over, and then lookups that find their object. */
module Convergence {
  import opened HashTables
  import opened Types
  import opened Graphs
  import opened RouteTables
  import opened Protocol
  import opened Steps
  import opened LocalState
  import opened Network
  import opened Flooding
  import opened Reliable
  import opened Forests
  import opened Queries
  import opened Forwarding
  import opened Relaying
  import opened EndToEnd

  // ---------------------------------------------------------------- one event

  ghost predicate SameObjs(a: Body, b: Body)
  {
    forall x :: x in a.objs ==> x in b.objs
  }

  /** Every name in the directory is listed by some stored LSA, expired or not. */
  ghost predicate NamesListed(s: Node)
  {
    forall x :: x in s.dir ==> exists o :: o in s.lsas && x in s.lsas[o].body.objs
  }

  /** A foreign body changes only by acceptance. */
  lemma StepBody(s: Node, ev: Event, o: nat)
    requires Enabled(s, ev) && o != s.nid
    ensures Accepts(s, ev) && ev.packet.origin == o ==>
      o in Step(s, ev).lsas && Step(s, ev).lsas[o].body == ev.packet.body
    ensures !(Accepts(s, ev) && ev.packet.origin == o) ==>
      (o in Step(s, ev).lsas <==> o in s.lsas) && (o in s.lsas ==> Step(s, ev).lsas[o].body == s.lsas[o].body)
  {
    if ev.Deliver? {
      if Accepts(s, ev) {
        AcceptEffect(s, ev);
      }
    } else if ev.Tick? {
      assert Step(s, ev).lsas.Keys == s.lsas.Keys;
    }
  }

  /** Files only join. */
  lemma StepFiles(s: Node, ev: Event)
    requires Enabled(s, ev) && OwnOk(s)
    ensures forall x :: x in s.files ==> x in Step(s, ev).files
    ensures s.nid in Step(s, ev).lsas && Step(s, ev).nid == s.nid
  {
    if ev.AddFile? && ev.name !in s.files {
      FileDir(s, ev);
    }
  }

  /** The newer body lists what the stored one did. */
  ghost predicate NoDrop(s: Node, ev: Event)
  {
    Accepts(s, ev) && ev.packet.origin in s.lsas ==> SameObjs(s.lsas[ev.packet.origin].body, ev.packet.body)
  }

  lemma {:induction false} AddObjsNames(dir: map<string, set<nat>>, objs: seq<string>, n: nat, x: string)
    ensures x in AddObjs(dir, objs, n) <==> x in dir || x in objs
  {
    if objs != [] {
      AddObjsNames(dir, objs[..|objs| - 1], n, x);
    }
  }

  /** The names an event brings into the directory. */
  lemma StepNames(s: Node, ev: Event, x: string)
    requires Enabled(s, ev)
    ensures x in Step(s, ev).dir <==>
      || x in s.dir || (Accepts(s, ev) && x in ev.packet.body.objs)
      || (ev.AddFile? && ev.name !in s.files && x in ev.filesAfter)
  {
    if Accepts(s, ev) {
      AddObjsNames(s.dir, ev.packet.body.objs, ev.packet.origin, x);
      assert Step(s, ev).dir == Learn(s, ev.packet).dir;
    } else if ev.AddFile? && ev.name !in s.files {
      AddObjsNames(s.dir, ev.filesAfter, s.nid, x);
    }
  }

  lemma StepListed(s: Node, ev: Event)
    requires Enabled(s, ev) && OwnOk(s) && OwnOk(Step(s, ev)) && NamesListed(s) && NoDrop(s, ev)
    ensures NamesListed(Step(s, ev))
  {
    var s' := Step(s, ev);
    forall x | x in s'.dir
      ensures exists o :: o in s'.lsas && x in s'.lsas[o].body.objs
    {
      StepNames(s, ev, x);
      if x in s.dir {
        var o :| o in s.lsas && x in s.lsas[o].body.objs;
        StillListed(s, ev, o, x);
      } else if Accepts(s, ev) {
        AcceptEffect(s, ev);
        assert x in s'.lsas[ev.packet.origin].body.objs;
      } else {
        assert x in s'.lsas[s.nid].body.objs;
      }
    }
  }

  lemma StillListed(s: Node, ev: Event, o: nat, x: string)
    requires Enabled(s, ev) && OwnOk(s) && OwnOk(Step(s, ev)) && NoDrop(s, ev)
    requires o in s.lsas && x in s.lsas[o].body.objs
    ensures o in Step(s, ev).lsas && x in Step(s, ev).lsas[o].body.objs
  {
    if o == s.nid {
      StepFiles(s, ev);
      assert x in s.files;
    } else {
      StepBody(s, ev, o);
    }
  }

  /** The own body stays unless it is flooded, if no neighbour goes down or comes up. */
  lemma OwnBodyKept(s: Node, ev: Event)
    requires Enabled(s, ev) && OwnOk(s) && AllUp(s) && !FloodsOwn(s, ev)
    ensures Step(s, ev).lsas[s.nid].body == s.lsas[s.nid].body
  {
    if ev.Tick? {
      TickBodyKept(s, ev);
    } else if ev.Deliver? && ev.packet.Ad? {
      AdBodyKept(s, ev);
    }
  }

  lemma TickBodyKept(s: Node, ev: Event)
    requires Enabled(s, ev) && ev.Tick? && !FloodsOwn(s, ev)
    ensures Step(s, ev).lsas[s.nid].body == s.lsas[s.nid].body
  {
    assert !NbExpires(s, ev.elapsed);
  }

  lemma AdBodyKept(s: Node, ev: Event)
    requires Enabled(s, ev) && ev.Deliver? && ev.packet.Ad? && AllUp(s)
    ensures Step(s, ev).lsas[s.nid].body == s.lsas[s.nid].body
  {
    if Accepts(s, ev) {
      assert !IsDown(s.nbs, ev.packet.origin);
      assert Revive(Learn(s, ev.packet), ev.packet.origin) == Learn(s, ev.packet);
    }
  }

  // ---------------------------------------------------------------- directories in every run

  /** What an origin announces, and so what the others store of it, never loses an object. */
  ghost predicate ObjsGrow(net: Net)
  {
    forall o, q, q' :: (o, q) in net.content && (o, q') in net.content && q <= q' ==>
      SameObjs(net.content[(o, q)], net.content[(o, q')])
  }

  ghost predicate OwnObjs(net: Net, n: nat)
    requires n in net.nodes
  {
    forall q, x :: (n, q) in net.content && x in net.content[(n, q)].objs ==> x in net.nodes[n].files
  }

  /** A stored foreign body was announced under the stored number or an earlier one. */
  ghost predicate WasAnnounced(net: Net, o: nat, lsa: Lsa)
  {
    exists q :: q <= lsa.seqNum && (o, q) in net.content && lsa.body == net.content[(o, q)]
  }

  ghost predicate Faithful(net: Net, n: nat)
    requires n in net.nodes
  {
    var s := net.nodes[n];
    && LocalOk(s) && DirSound(s) && NamesListed(s) && OwnObjs(net, n)
    && forall o :: o in s.lsas && o != n ==> WasAnnounced(net, o, s.lsas[o])
  }

  ghost predicate AllFaithful(net: Net)
  {
    Inv(net) && ObjsGrow(net) && forall n {:trigger Faithful(net, n)} :: n in net.nodes ==> Faithful(net, n)
  }

  lemma AcceptsMore(net: Net, a: Action)
    requires AllFaithful(net) && Possible(net, a)
    ensures NoDrop(net.nodes[a.node], a.ev)
  {
    var s, ev := net.nodes[a.node], a.ev;
    if Accepts(s, ev) && ev.packet.origin in s.lsas {
      var o := ev.packet.origin;
      var m := Arrival(net, a.node, ev);
      assert Faithful(net, a.node) && NodeOk(net, a.node);
      assert WasAnnounced(net, o, s.lsas[o]);
    }
  }

  // ---------------------------------------------------------------- one event of a network

  /** The body stored for o is one that o announced under the stored number, or the one stored before. */
  ghost predicate ForeignChange(net: Net, s: Node, s': Node, o: nat, raised: bool)
  {
    o in s'.lsas && o != s.nid ==>
      || ((o, s'.lsas[o].seqNum) in net.content && s'.lsas[o].body == net.content[(o, s'.lsas[o].seqNum)])
      || (&& o in s.lsas && s'.lsas[o].body == s.lsas[o].body && s.lsas[o].seqNum <= s'.lsas[o].seqNum
          && (!raised ==> s.lsas[o].seqNum == s'.lsas[o].seqNum))
  }

  /** The own body is announced under a new number, or nothing is announced. */
  ghost predicate OwnChange(net: Net, net': Net, s: Node, s': Node)
  {
    && s.nid in s.lsas && s.nid in s'.lsas
    && if net'.content == net.content then
         s'.lsas[s.nid].seqNum == s.lsas[s.nid].seqNum && (AllUp(s) ==> s'.lsas[s.nid].body == s.lsas[s.nid].body)
       else
         && s'.lsas[s.nid].seqNum > s.lsas[s.nid].seqNum
         && net'.content == net.content[(s.nid, s'.lsas[s.nid].seqNum - 1) := s'.lsas[s.nid].body]
  }

  /** A node announces under numbers below its next one. */
  ghost predicate NumberedBelow(net: Net, n: nat)
  {
    forall q :: (n, q) in net.content ==> n in net.nodes && n in net.nodes[n].lsas && q < net.nodes[n].lsas[n].seqNum
  }

  lemma OlderNumbers(net: Net, n: nat)
    requires Inv(net)
    ensures NumberedBelow(net, n)
  {
    forall q | (n, q) in net.content
      ensures Has(net, n, n, q)
    {
      assert (n, n, q) in net.hop;
    }
  }

  /** What an event at n does to bodies, numbers and announced contents. */
  ghost predicate Changed(net: Net, net': Net, n: nat, raised: bool)
  {
    && NumberedBelow(net, n) && n in net.nodes && n in net'.nodes && net'.nodes == net.nodes[n := net'.nodes[n]]
    && net.nodes[n].nid == n && net'.nodes[n].nid == n
    && OwnOk(net.nodes[n]) && LocalOk(net'.nodes[n])
    && (forall x :: x in net.nodes[n].files ==> x in net'.nodes[n].files)
    && OwnChange(net, net', net.nodes[n], net'.nodes[n])
    && forall o {:trigger ForeignChange(net, net.nodes[n], net'.nodes[n], o, raised)} ::
      ForeignChange(net, net.nodes[n], net'.nodes[n], o, raised)
  }

  /** An own flood, and only that, announces something: what is stored, under a new number. */
  lemma NextContent(net: Net, a: Action)
    requires Inv(net) && Possible(net, a) && FloodsOwn(net.nodes[a.node], a.ev)
    ensures var s, own' := net.nodes[a.node], Step(net.nodes[a.node], a.ev).lsas[net.nodes[a.node].nid];
      && own'.seqNum > s.lsas[s.nid].seqNum && (s.nid, own'.seqNum - 1) !in net.content
      && Next(net, a).content == net.content[(s.nid, own'.seqNum - 1) := own'.body]
  {
    assert NodeOk(net, a.node);
    OwnNumber(net.nodes[a.node], a.ev);
    OlderNumbers(net, a.node);
    NextOfFlood(net, a);
  }

  lemma NextOfFlood(net: Net, a: Action)
    requires Possible(net, a) && FloodsOwn(net.nodes[a.node], a.ev)
    ensures var s, lsa := net.nodes[a.node], FloodOf(net.nodes[a.node], a.ev).value.lsa;
      Next(net, a).content == net.content[(s.nid, lsa.seqNum) := lsa.body]
  {
    assert !Accepts(net.nodes[a.node], a.ev);
  }

  lemma OwnKept(net: Net, a: Action)
    requires Inv(net) && Possible(net, a) && LocalOk(net.nodes[a.node]) && !FloodsOwn(net.nodes[a.node], a.ev)
    ensures var s, own' := net.nodes[a.node], Step(net.nodes[a.node], a.ev).lsas[net.nodes[a.node].nid];
      own'.seqNum == s.lsas[s.nid].seqNum && (AllUp(s) ==> own'.body == s.lsas[s.nid].body)
    ensures Next(net, a).content == net.content
  {
    assert NodeOk(net, a.node);
    OwnNumber(net.nodes[a.node], a.ev);
    if AllUp(net.nodes[a.node]) {
      OwnBodyKept(net.nodes[a.node], a.ev);
    }
  }

  lemma OwnChangeIs(net: Net, net': Net, s: Node, s': Node, announces: bool)
    requires s.nid in s.lsas && s.nid in s'.lsas
    requires var own, own' := s.lsas[s.nid], s'.lsas[s.nid];
      if announces then
        && own'.seqNum > own.seqNum && (s.nid, own'.seqNum - 1) !in net.content
        && net'.content == net.content[(s.nid, own'.seqNum - 1) := own'.body]
      else net'.content == net.content && own'.seqNum == own.seqNum && (AllUp(s) ==> own'.body == own.body)
    ensures OwnChange(net, net', s, s')
  {
  }

  lemma NextOwn(net: Net, a: Action)
    requires Inv(net) && Possible(net, a) && LocalOk(net.nodes[a.node])
    ensures OwnChange(net, Next(net, a), net.nodes[a.node], Step(net.nodes[a.node], a.ev))
  {
    if FloodsOwn(net.nodes[a.node], a.ev) {
      NextFlooded(net, a);
    } else {
      NextKept(net, a);
    }
  }

  lemma NextFlooded(net: Net, a: Action)
    requires Inv(net) && Possible(net, a) && LocalOk(net.nodes[a.node]) && FloodsOwn(net.nodes[a.node], a.ev)
    ensures OwnChange(net, Next(net, a), net.nodes[a.node], Step(net.nodes[a.node], a.ev))
  {
    var s, ev := net.nodes[a.node], a.ev;
    NextContent(net, a);
    StepFiles(s, ev);
    OwnChangeIs(net, Next(net, a), s, Step(s, ev), true);
  }

  lemma NextKept(net: Net, a: Action)
    requires Inv(net) && Possible(net, a) && LocalOk(net.nodes[a.node]) && !FloodsOwn(net.nodes[a.node], a.ev)
    ensures OwnChange(net, Next(net, a), net.nodes[a.node], Step(net.nodes[a.node], a.ev))
  {
    var s, ev := net.nodes[a.node], a.ev;
    OwnKept(net, a);
    StepFiles(s, ev);
    OwnChangeIs(net, Next(net, a), s, Step(s, ev), false);
  }

  lemma NextForeign(net: Net, a: Action, o: nat)
    requires Inv(net) && Possible(net, a) && LocalOk(net.nodes[a.node])
    ensures ForeignChange(net, net.nodes[a.node], Step(net.nodes[a.node], a.ev), o, Overtakes(net.nodes[a.node], a.ev))
  {
    var s, ev := net.nodes[a.node], a.ev;
    assert NodeOk(net, a.node);
    if o in Step(s, ev).lsas && o != s.nid {
      StepBody(s, ev, o);
      ForeignNumber(s, ev, o);
      if Accepts(s, ev) && ev.packet.origin == o {
        AcceptEffect(s, ev);
        var m := Arrival(net, a.node, ev);
      }
    }
  }

  lemma NextNodes(net: Net, a: Action)
    requires Possible(net, a)
    ensures Next(net, a).nodes == net.nodes[a.node := Step(net.nodes[a.node], a.ev)]
  {
    hide Step;
  }

  lemma NextLocal(net: Net, a: Action)
    requires Inv(net) && Possible(net, a) && LocalOk(net.nodes[a.node])
    ensures var s, s' := net.nodes[a.node], Step(net.nodes[a.node], a.ev);
      s.nid == a.node && s'.nid == a.node && LocalOk(s') && forall x :: x in s.files ==> x in s'.files
    ensures Next(net, a).nodes == net.nodes[a.node := Step(net.nodes[a.node], a.ev)]
  {
    assert NodeOk(net, a.node);
    hide Step, LocalOk, AddrOk, NumbersOk, WireOk, HistoryOk, Next;
    NextNodes(net, a);
    StepLocal(net.nodes[a.node], a.ev);
    StepFiles(net.nodes[a.node], a.ev);
  }

  lemma NextChanged(net: Net, a: Action)
    requires Inv(net) && Possible(net, a) && LocalOk(net.nodes[a.node])
    ensures Changed(net, Next(net, a), a.node, Overtakes(net.nodes[a.node], a.ev))
  {
    OlderNumbers(net, a.node);
    NextLocal(net, a);
    NextOwn(net, a);
    forall o
      ensures ForeignChange(net, net.nodes[a.node], Next(net, a).nodes[a.node], o, Overtakes(net.nodes[a.node], a.ev))
    {
      NextForeign(net, a, o);
    }
  }

  // ---------------------------------------------------------------- objects

  lemma ChangedObjs(net: Net, net': Net, n: nat, raised: bool)
    requires Changed(net, net', n, raised) && OwnObjs(net, n) && ObjsGrow(net)
    ensures OwnObjs(net', n) && ObjsGrow(net')
  {
    forall o, q, q' | (o, q) in net'.content && (o, q') in net'.content && q <= q'
      ensures SameObjs(net'.content[(o, q)], net'.content[(o, q')])
    {
    }
  }

  lemma ContentKept(net: Net, net': Net, n: nat, raised: bool, k: (nat, nat))
    requires Changed(net, net', n, raised) && k in net.content
    ensures k in net'.content && net'.content[k] == net.content[k]
  {
    assert k == (k.0, k.1);
  }

  lemma ChangedForeign(net: Net, net': Net, n: nat, raised: bool, o: nat)
    requires Changed(net, net', n, raised) && o in net'.nodes[n].lsas && o != n
    requires o in net.nodes[n].lsas ==> WasAnnounced(net, o, net.nodes[n].lsas[o])
    ensures WasAnnounced(net', o, net'.nodes[n].lsas[o])
  {
    var lsa := net'.nodes[n].lsas[o];
    assert ForeignChange(net, net.nodes[n], net'.nodes[n], o, raised);
    if (o, lsa.seqNum) in net.content && lsa.body == net.content[(o, lsa.seqNum)] {
      ContentKept(net, net', n, raised, (o, lsa.seqNum));
    } else {
      StillAnnounced(net, net', n, raised, o, net.nodes[n].lsas[o]);
    }
  }

  lemma StillAnnounced(net: Net, net': Net, n: nat, raised: bool, o: nat, lsa: Lsa)
    requires Changed(net, net', n, raised) && WasAnnounced(net, o, lsa)
    ensures WasAnnounced(net', o, lsa)
  {
    var q :| q <= lsa.seqNum && (o, q) in net.content && lsa.body == net.content[(o, q)];
    ContentKept(net, net', n, raised, (o, q));
  }

  /** Directory and names of one node. */
  lemma StepExact(net: Net, a: Action)
    requires AllFaithful(net) && Possible(net, a)
    ensures DirSound(Step(net.nodes[a.node], a.ev)) && NamesListed(Step(net.nodes[a.node], a.ev))
  {
    var s, ev := net.nodes[a.node], a.ev;
    assert Faithful(net, a.node) && NodeOk(net, a.node);
    AcceptsMore(net, a);
    StepLocal(s, ev);
    DirectoryExact(s, ev);
    StepListed(s, ev);
  }

  lemma ChangedFaithful(net: Net, net': Net, n: nat, raised: bool, m: nat)
    requires AllFaithful(net) && Changed(net, net', n, raised) && m in net'.nodes
    requires DirSound(net'.nodes[n]) && NamesListed(net'.nodes[n])
    ensures Faithful(net', m)
  {
    assert Faithful(net, m) && Faithful(net, n);
    ChangedObjs(net, net', n, raised);
    forall o | o in net'.nodes[m].lsas && o != m
      ensures WasAnnounced(net', o, net'.nodes[m].lsas[o])
    {
      if m == n {
        ChangedForeign(net, net', n, raised, o);
      } else {
        StillAnnounced(net, net', n, raised, o, net'.nodes[m].lsas[o]);
      }
    }
  }

  lemma ChangedAll(net: Net, net': Net, n: nat, raised: bool)
    requires AllFaithful(net) && Changed(net, net', n, raised) && Inv(net')
    requires DirSound(net'.nodes[n]) && NamesListed(net'.nodes[n])
    ensures AllFaithful(net')
  {
    assert Faithful(net, n);
    ChangedObjs(net, net', n, raised);
    forall m | m in net'.nodes
      ensures Faithful(net', m)
    {
      ChangedFaithful(net, net', n, raised, m);
    }
  }

  lemma NextExact(net: Net, a: Action)
    requires AllFaithful(net) && Possible(net, a)
    ensures DirSound(Next(net, a).nodes[a.node]) && NamesListed(Next(net, a).nodes[a.node])
  {
    assert Faithful(net, a.node);
    NextLocal(net, a);
    StepExact(net, a);
  }

  lemma NextAllFaithful(net: Net, a: Action)
    requires AllFaithful(net) && Possible(net, a)
    ensures AllFaithful(Next(net, a))
  {
    assert Faithful(net, a.node);
    NextInv(net, a);
    NextExact(net, a);
    NextChanged(net, a);
    ChangedAll(net, Next(net, a), a.node, Overtakes(net.nodes[a.node], a.ev));
  }

  lemma StartFaithful(net: Net, n: nat)
    requires Starts(net) && Inv(net) && n in net.nodes
    ensures Faithful(net, n)
  {
    var s := net.nodes[n];
    assert StartsAt(net, n);
    BootLocal(n, s.timers, s.nbs, s.files);
    forall x | x in s.dir
      ensures x in s.lsas[n].body.objs
    {
      AddObjsNames(map[], s.files, n, x);
    }
    assert forall q :: (n, q) in net.content ==> q == 0;
  }

  lemma StartAll(net: Net)
    requires Starts(net)
    ensures AllFaithful(net)
  {
    StartInv(net);
    forall n | n in net.nodes
      ensures Faithful(net, n)
    {
      StartFaithful(net, n);
    }
    forall o, q | (o, q) in net.content
      ensures q == 0
    {
      var k := (o, q);
      assert k in net.content;
    }
  }

  lemma {:induction false} RunFaithful(r: seq<Net>, acts: seq<Action>, i: nat)
    requires IsRun(r, acts) && i < |r|
    ensures AllFaithful(r[i])
  {
    if i == 0 {
      StartAll(r[0]);
    } else {
      RunFaithful(r, acts, i - 1);
      assert StepAt(r, acts, i - 1);
      NextAllFaithful(r[i - 1], acts[i - 1]);
    }
  }

  /** In every run, at every node: neighbour flags and own LSA are right, and the directory leads from each object to
      exactly the nodes whose valid LSA lists it. */
  lemma DirectoriesExact(r: seq<Net>, acts: seq<Action>, i: nat, n: nat, x: string, o: nat)
    requires IsRun(r, acts) && i < |r| && n in r[i].nodes
    ensures LocalOk(r[i].nodes[n]) && (Maps(r[i].nodes[n].dir, x, o) <==> Lists(r[i].nodes[n], o, x))
  {
    RunFaithful(r, acts, i);
    assert Faithful(r[i], n);
  }

  // ---------------------------------------------------------------- contents in smooth runs

  /** What is stored is what was last announced: by others under the stored number, by the node itself under the
      number before its next one. */
  ghost predicate Current(net: Net, n: nat)
    requires n in net.nodes
  {
    var lsas := net.nodes[n].lsas;
    && (forall o :: o in lsas && o != n ==>
      (o, lsas[o].seqNum) in net.content && lsas[o].body == net.content[(o, lsas[o].seqNum)])
    && n in lsas && lsas[n].seqNum > 0 && (n, lsas[n].seqNum - 1) in net.content
    && lsas[n].body == net.content[(n, lsas[n].seqNum - 1)]
  }

  lemma ChangedCurrent(net: Net, net': Net, n: nat, m: nat)
    requires Changed(net, net', n, false) && m in net.nodes && Current(net, m) && AllUp(net.nodes[n])
    ensures m in net'.nodes && Current(net', m)
  {
    var lsas, lsas' := net.nodes[m].lsas, net'.nodes[m].lsas;
    forall o | o in lsas' && o != m
      ensures (o, lsas'[o].seqNum) in net'.content && lsas'[o].body == net'.content[(o, lsas'[o].seqNum)]
    {
      assert m == n ==> ForeignChange(net, net.nodes[n], net'.nodes[n], o, false);
      ContentKept(net, net', n, false, (o, lsas'[o].seqNum));
    }
    ContentKept(net, net', n, false, (m, lsas[m].seqNum - 1));
  }

  lemma StartCurrent(net: Net, n: nat)
    requires Starts(net) && n in net.nodes
    ensures Current(net, n)
  {
    assert StartsAt(net, n);
    StartInv(net);
    assert NodeOk(net, n);
  }

  lemma SmoothChanged(r: seq<Net>, acts: seq<Action>, i: nat)
    requires Smooth(r, acts) && i < |acts|
    ensures acts[i].node in r[i].nodes && Changed(r[i], r[i + 1], acts[i].node, false)
    ensures AllUp(r[i].nodes[acts[i].node])
  {
    assert StepAt(r, acts, i) && SmoothAt(r, acts, i);
    RunReliable(r, acts, i);
    RunFaithful(r, acts, i);
    assert Faithful(r[i], acts[i].node) && NodeOk(r[i], acts[i].node);
    NextChanged(r[i], acts[i]);
  }

  lemma {:induction false} RunCurrent(r: seq<Net>, acts: seq<Action>, i: nat, n: nat)
    requires Smooth(r, acts) && i < |r| && n in r[i].nodes
    ensures Current(r[i], n)
  {
    if i == 0 {
      StartCurrent(r[0], n);
    } else {
      SmoothChanged(r, acts, i - 1);
      RunCurrent(r, acts, i - 1, n);
      ChangedCurrent(r[i - 1], r[i], acts[i - 1].node, n);
    }
  }

  // ---------------------------------------------------------------- agreement when the flooding is over

  /** Every node knows every node, by the body that the other one has itself, and no LSA has expired. */
  ghost predicate Alike(net: Net, n: nat)
    requires n in net.nodes
  {
    var s := net.nodes[n];
    && s.nid == n && s.lsas.Keys == net.nodes.Keys && LocalOk(s) && DirSound(s) && NamesListed(s)
    && (forall i :: 0 <= i < |s.nbs| ==> s.nbs[i].key in net.nodes)
    && forall o :: o in net.nodes ==>
      o in net.nodes[o].lsas && s.lsas[o].valid && s.lsas[o].body == net.nodes[o].lsas[o].body
  }

  ghost predicate Unexpired(net: Net)
  {
    forall n, o :: n in net.nodes && o in net.nodes[n].lsas ==> net.nodes[n].lsas[o].valid
  }

  ghost predicate Connected(net: Net)
  {
    forall n, m :: n in net.nodes && m in net.nodes ==> Reachable(NbGraph(net), n, m)
  }

  /** The flooding is over: nothing is queued or pending, nothing has expired, and every node is reached by
      every other. */
  ghost predicate Settled(r: seq<Net>, acts: seq<Action>, i: nat)
  {
    Smooth(r, acts) && i < |r| && Quiet(r[i]) && |r[i].nodes| <= 33 && Connected(r[i]) && Unexpired(r[i])
  }

  lemma SameBody(r: seq<Net>, acts: seq<Action>, i: nat, n: nat, o: nat)
    requires Settled(r, acts, i) && n in r[i].nodes && o in r[i].nodes
    ensures o in r[i].nodes[n].lsas && o in r[i].nodes[o].lsas
    ensures r[i].nodes[n].lsas[o].body == r[i].nodes[o].lsas[o].body
  {
    RunCurrent(r, acts, i, n);
    RunCurrent(r, acts, i, o);
    if n != o {
      ReliableFlooding(r, acts, i, o, n);
      LastAnnounced(r[i], n, o);
    }
  }

  lemma LastAnnounced(net: Net, n: nat, o: nat)
    requires n in net.nodes && o in net.nodes && n != o && Current(net, n) && Current(net, o)
    requires o in net.nodes[n].lsas && net.nodes[n].lsas[o].seqNum == net.nodes[o].lsas[o].seqNum - 1
    ensures net.nodes[n].lsas[o].body == net.nodes[o].lsas[o].body
  {
  }

  lemma AlikeIf(net: Net, n: nat)
    requires n in net.nodes && Faithful(net, n) && NodeOk(net, n) && Unexpired(net)
    requires forall o :: o in net.nodes ==>
      o in net.nodes[n].lsas && o in net.nodes[o].lsas && net.nodes[n].lsas[o].body == net.nodes[o].lsas[o].body
    ensures Alike(net, n)
  {
  }

  lemma SettledAlike(r: seq<Net>, acts: seq<Action>, i: nat, n: nat)
    requires Settled(r, acts, i) && n in r[i].nodes
    ensures Alike(r[i], n)
  {
    FaithfulAt(r, acts, i, n);
    forall o | o in r[i].nodes
      ensures o in r[i].nodes[n].lsas && o in r[i].nodes[o].lsas
      ensures r[i].nodes[n].lsas[o].body == r[i].nodes[o].lsas[o].body
    {
      SameBody(r, acts, i, n, o);
    }
    AlikeIf(r[i], n);
  }

  lemma FaithfulAt(r: seq<Net>, acts: seq<Action>, i: nat, n: nat)
    requires IsRun(r, acts) && i < |r| && n in r[i].nodes
    ensures Faithful(r[i], n) && NodeOk(r[i], n)
  {
    RunFaithful(r, acts, i);
    assert Faithful(r[i], n);
  }

  /** The links that the nodes announce themselves. */
  ghost function TrueMap(net: Net): (g: Graph)
    ensures forall a: nat, b: nat :: (a, b) in g <==>
      a in net.nodes && b in net.nodes && a != b && a in net.nodes[a].lsas && b in net.nodes[a].lsas[a].body.links
  {
    set a: nat, b: nat | a in net.nodes && b in net.nodes && a != b && a in net.nodes[a].lsas &&
      b in net.nodes[a].lsas[a].body.links :: (a, b)
  }

  /** The links of the own body are the neighbours that are up, and all of them are known. */
  lemma OwnLinks(net: Net, a: nat, b: nat)
    requires a in net.nodes && Alike(net, a) && a != b
    ensures b in net.nodes[a].lsas[a].body.links <==> b in ValidIds(net.nodes[a].nbs)
    ensures b in net.nodes[a].lsas[a].body.links ==> b in net.nodes
  {
    LiveLinksAre(net.nodes[a].nbs, a, b);
  }

  lemma AllKnown(net: Net, a: nat)
    requires a in net.nodes && Alike(net, a)
    ensures KnownPrefix(net.nodes[a].lsas[a].body.links, net.nodes.Keys) == net.nodes[a].lsas[a].body.links
  {
    var links := net.nodes[a].lsas[a].body.links;
    assert links[..|links|] == links;
    forall x | x in links
      ensures x in net.nodes
    {
      LiveLinksAre(net.nodes[a].nbs, a, x);
    }
    KnownPrefixIs(links, net.nodes.Keys, |links|);
  }

  lemma SeesTrueMap(net: Net, n: nat)
    requires n in net.nodes && forall m {:trigger Alike(net, m)} :: m in net.nodes ==> Alike(net, m)
    ensures LinkMap(net.nodes[n]) == TrueMap(net)
  {
    var s := net.nodes[n];
    assert Alike(net, n);
    forall a: nat, b: nat
      ensures (a, b) in LinkMap(s) <==> (a, b) in TrueMap(net)
    {
      if a in net.nodes && a != b {
        assert Alike(net, a);
        OwnLinks(net, a, b);
        AllKnown(net, a);
      }
    }
  }

  lemma SameMaps(a: map<string, set<nat>>, b: map<string, set<nat>>)
    requires a.Keys == b.Keys && forall x, o :: Maps(a, x, o) <==> Maps(b, x, o)
    ensures a == b
  {
    forall x | x in a
      ensures a[x] == b[x]
    {
      assert forall o :: o in a[x] <==> Maps(a, x, o);
      assert forall o :: o in b[x] <==> Maps(b, x, o);
    }
  }

  lemma SameDirectory(net: Net, n: nat, m: nat)
    requires n in net.nodes && m in net.nodes && Alike(net, n) && Alike(net, m)
    ensures net.nodes[n].dir == net.nodes[m].dir
  {
    var s, t := net.nodes[n], net.nodes[m];
    forall x, o
      ensures Maps(s.dir, x, o) <==> Maps(t.dir, x, o)
    {
      assert Lists(s, o, x) <==> Lists(t, o, x);
    }
    SameNames(net, n, m);
    SameNames(net, m, n);
    SameMaps(s.dir, t.dir);
  }

  lemma SameNames(net: Net, n: nat, m: nat)
    requires n in net.nodes && m in net.nodes && Alike(net, n) && Alike(net, m)
    ensures forall x :: x in net.nodes[n].dir ==> x in net.nodes[m].dir
  {
    var s, t := net.nodes[n], net.nodes[m];
    forall x | x in s.dir
      ensures x in t.dir
    {
      var o :| o in s.lsas && x in s.lsas[o].body.objs;
      assert Lists(t, o, x);
    }
  }

  /** The state of a network with the object trees of its nodes. */
  ghost function Sites(net: Net, stores: map<nat, Store>): map<nat, Site>
    requires stores.Keys == net.nodes.Keys
  {
    map n | n in net.nodes :: Site(net.nodes[n], stores[n].tree, stores[n].paths)
  }

  /** What a daemon keeps besides its protocol state: the object tree and the paths of its files. */
  datatype Store = Store(tree: Forest, paths: map<string, string>)
  {
    ghost predicate For(s: Node)
    {
      Represents(tree, s.dir) && forall x :: x in s.files <==> x in paths
    }
  }

  lemma SiteAgrees(net: Net, store: Store, n: nat, m: nat)
    requires n in net.nodes && m in net.nodes && NO_HOP !in net.nodes && store.For(net.nodes[m])
    requires forall k {:trigger Alike(net, k)} :: k in net.nodes ==> Alike(net, k)
    ensures SiteOk(Site(net.nodes[m], store.tree, store.paths), m, net.nodes.Keys, TrueMap(net), net.nodes[n].dir)
  {
    assert Alike(net, m) && Alike(net, n);
    SeesTrueMap(net, m);
    SameDirectory(net, m, n);
  }

  /** Once the flooding of a smooth run is over, all nodes see one map and one directory. */
  lemma NodesAgree(r: seq<Net>, acts: seq<Action>, i: nat, stores: map<nat, Store>, n: nat)
    requires Settled(r, acts, i) && NO_HOP !in r[i].nodes && stores.Keys == r[i].nodes.Keys && n in r[i].nodes
    requires forall m :: m in r[i].nodes ==> stores[m].For(r[i].nodes[m])
    ensures Agreed(Sites(r[i], stores), TrueMap(r[i]), r[i].nodes[n].dir)
  {
    AllAlike(r, acts, i, r[i]);
    SitesAgree(r[i], stores, n);
  }

  lemma AllAlike(r: seq<Net>, acts: seq<Action>, i: nat, net: Net)
    requires Settled(r, acts, i) && net == r[i]
    ensures forall m {:trigger Alike(net, m)} :: m in net.nodes ==> Alike(net, m)
  {
    forall m | m in net.nodes
      ensures Alike(net, m)
    {
      SettledAlike(r, acts, i, m);
    }
  }

  lemma SitesAgree(net: Net, stores: map<nat, Store>, n: nat)
    requires n in net.nodes && NO_HOP !in net.nodes && stores.Keys == net.nodes.Keys
    requires forall m :: m in net.nodes ==> stores[m].For(net.nodes[m])
    requires forall k {:trigger Alike(net, k)} :: k in net.nodes ==> Alike(net, k)
    ensures Agreed(Sites(net, stores), TrueMap(net), net.nodes[n].dir)
  {
    var sites := Sites(net, stores);
    forall m | m in sites
      ensures SiteOk(sites[m], m, sites.Keys, TrueMap(net), net.nodes[n].dir)
    {
      SiteAgrees(net, stores[m], n, m);
      assert sites.Keys == net.nodes.Keys;
    }
  }

  /** All nodes reach each other over the links that they announce. */
  lemma LinksConnect(net: Net, n: nat, m: nat)
    requires Connected(net) && Unexpired(net) && n in net.nodes && m in net.nodes
    requires forall k {:trigger Alike(net, k)} :: k in net.nodes ==> Alike(net, k)
    ensures Reachable(TrueMap(net), n, m)
  {
    PlainDist(NbGraph(net), n, m, 0);
    var k: nat :| Hops(Plain(NbGraph(net)), n, m, k);
    HopsOnMap(net, n, m, k);
  }

  lemma {:induction false} HopsOnMap(net: Net, n: nat, m: nat, k: nat)
    requires Unexpired(net) && Hops(Plain(NbGraph(net)), n, m, k)
    requires forall j {:trigger Alike(net, j)} :: j in net.nodes ==> Alike(net, j)
    ensures Hops(TrueMap(net), n, m, k)
    decreases k
  {
    if k > 0 {
      var w: nat :| Hops(Plain(NbGraph(net)), n, w, k - 1) && (w, m) in Plain(NbGraph(net));
      HopsOnMap(net, n, w, k - 1);
      LinkOnMap(net, w, m);
    }
  }

  lemma LinkOnMap(net: Net, w: nat, m: nat)
    requires Unexpired(net) && (w, m) in Plain(NbGraph(net)) && w in net.nodes && Alike(net, w)
    ensures (w, m) in TrueMap(net)
  {
    var s := net.nodes[w];
    var i :| 0 <= i < |s.nbs| && s.nbs[i].key == m;
    assert s.nbs[i].val.valid;
    OwnLinks(net, w, m);
  }

  /** From flooding to lookups: in such a state a request for a name that some node has is passed on exactly d times,
      d being the distance of the nearest goal, and then answered with the path of the file. */
  lemma SettledLookup(r: seq<Net>, acts: seq<Action>, i: nat, stores: map<nat, Store>, name: string, path: seq<nat>,
          replies: seq<Reply>, d: nat)
    requires Settled(r, acts, i) && NO_HOP !in r[i].nodes && stores.Keys == r[i].nodes.Keys
    requires forall m :: m in r[i].nodes ==> stores[m].For(r[i].nodes[m])
    requires Journey(Sites(r[i], stores), name, path, replies) && Relayable(name)
    requires Away(Sites(r[i], stores)[path[0]], name, d) && Owners(Sites(r[i], stores), name) != {}
    ensures var k := |path| - 1; var last := path[k];
      && k <= d && (k < d ==> NamesNext(Sites(r[i], stores), name, last, replies[k], d - k))
      && (k == d ==> name in stores[last].paths && replies[k] == Here(stores[last].paths[name]))
  {
    NodesAgree(r, acts, i, stores, path[0]);
    FindsObject(Sites(r[i], stores), TrueMap(r[i]), r[i].nodes[path[0]].dir, name, path, replies, d);
  }

  /** In such a state a lookup that is over has found a file if and only if some node has a file of that name. */
  lemma SettledFound(r: seq<Net>, acts: seq<Action>, i: nat, stores: map<nat, Store>, name: string, path: seq<nat>,
          replies: seq<Reply>)
    requires Settled(r, acts, i) && NO_HOP !in r[i].nodes && stores.Keys == r[i].nodes.Keys
    requires forall m :: m in r[i].nodes ==> stores[m].For(r[i].nodes[m])
    requires Journey(Sites(r[i], stores), name, path, replies) && Relayable(name) && !replies[|path| - 1].There?
    ensures replies[|path| - 1].Here? <==> exists m :: m in r[i].nodes && name in r[i].nodes[m].files
  {
    var sites := Sites(r[i], stores);
    NodesAgree(r, acts, i, stores, path[0]);
    FoundExactly(sites, TrueMap(r[i]), r[i].nodes[path[0]].dir, name, path, replies);
    OwnersReached(r, acts, i, stores, name, path[0]);
  }

  lemma OwnersReached(r: seq<Net>, acts: seq<Action>, i: nat, stores: map<nat, Store>, name: string, n: nat)
    requires Settled(r, acts, i) && stores.Keys == r[i].nodes.Keys && n in r[i].nodes
    ensures Reached(TrueMap(r[i]), n, Owners(Sites(r[i], stores), name)) != {} <==>
      exists m :: m in r[i].nodes && name in r[i].nodes[m].files
  {
    AllAlike(r, acts, i, r[i]);
    if m :| m in r[i].nodes && name in r[i].nodes[m].files {
      LinksConnect(r[i], n, m);
      assert m in Reached(TrueMap(r[i]), n, Owners(Sites(r[i], stores), name));
    }
    if m :| m in Reached(TrueMap(r[i]), n, Owners(Sites(r[i], stores), name)) {
      assert m in r[i].nodes && name in r[i].nodes[m].files;
    }
  }
}
