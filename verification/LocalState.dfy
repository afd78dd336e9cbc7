/** What every event keeps true inside one daemon: neighbour flags, own LSA and object directory. */
module LocalState {
  import opened HashTables
  import opened Types
  import opened Protocol
  import opened Steps

  /** A neighbour is marked down exactly while the database holds an expired LSA from it. */
  ghost predicate FlagsOk(s: Node)
  {
    && (forall i, j :: 0 <= i < j < |s.nbs| ==> s.nbs[i].key != s.nbs[j].key)
    && forall i :: 0 <= i < |s.nbs| ==>
         (!s.nbs[i].val.valid <==> s.nbs[i].key in s.lsas && !s.lsas[s.nbs[i].key].valid)
  }

  /** The own LSA never expires and announces the current neighbours and files. */
  ghost predicate OwnOk(s: Node)
  {
    s.nid in s.lsas && s.lsas[s.nid].valid && s.lsas[s.nid].body == LocalBody(s)
  }

  ghost predicate Lists(s: Node, n: nat, o: string)
  {
    n in s.lsas && s.lsas[n].valid && o in s.lsas[n].body.objs
  }

  ghost predicate Maps(dir: map<string, set<nat>>, o: string, n: nat)
  {
    o in dir && n in dir[o]
  }

  /** Every object of a valid LSA leads to its node. */
  ghost predicate DirComplete(s: Node)
  {
    forall n, o :: Lists(s, n, o) ==> Maps(s.dir, o, n)
  }

  /** Every node in the directory has a valid LSA that lists the object. */
  ghost predicate DirSound(s: Node)
  {
    forall n, o :: Maps(s.dir, o, n) ==> Lists(s, n, o)
  }

  ghost predicate LocalOk(s: Node)
  {
    FlagsOk(s) && OwnOk(s) && DirComplete(s) && IsNb(s.nbs, s.nid)
  }

  // ---------------------------------------------------------------- own LSA contents

  /** The link list of the own LSA is exactly the live neighbours other than the node itself. */
  lemma {:induction false} LiveLinksAre(nbs: seq<Entry<nat, Neighbour>>, self: nat, x: nat)
    ensures x in LiveLinks(nbs, self) <==>
      x != self && exists i :: 0 <= i < |nbs| && nbs[i].key == x && nbs[i].val.valid
  {
    if nbs != [] {
      LiveLinksAre(nbs[..|nbs| - 1], self, x);
    }
  }

  /** In every good state the own LSA lists exactly the live neighbours and the local files. */
  lemma OwnLsaFaithful(s: Node, x: nat)
    requires OwnOk(s)
    ensures x in s.lsas[s.nid].body.links <==> x != s.nid && exists i ::
      0 <= i < |s.nbs| && s.nbs[i].key == x && s.nbs[i].val.valid
    ensures s.lsas[s.nid].body.objs == s.files
  {
    LiveLinksAre(s.nbs, s.nid, x);
  }

  // ---------------------------------------------------------------- directory functions

  lemma {:induction false} AddObjsMaps(dir: map<string, set<nat>>, objs: seq<string>, n: nat, o: string, m: nat)
    ensures Maps(AddObjs(dir, objs, n), o, m) <==> Maps(dir, o, m) || (m == n && o in objs)
  {
    if objs != [] {
      AddObjsMaps(dir, objs[..|objs| - 1], n, o, m);
    }
  }

  /** Objects are dropped for exactly the expired nodes that list them. */
  lemma WithoutObjsMaps(dir: map<string, set<nat>>, gone: set<nat>, lsas: map<nat, Lsa>, o: string, m: nat)
    ensures Maps(WithoutObjs(dir, gone, lsas), o, m) <==>
      Maps(dir, o, m) && !(m in gone && m in lsas && o in lsas[m].body.objs)
  {
  }

  // ---------------------------------------------------------------- flags and own LSA

  lemma AgeFlags(s: Node, elapsed: int)
    requires FlagsOk(s)
    ensures FlagsOk(AgeLsas(s, elapsed))
  {
  }

  lemma ReviveFlags(s: Node, ad: Packet)
    requires FlagsOk(s) && OwnOk(s) && ad.Ad? && ad.origin != s.nid
    ensures FlagsOk(Revive(Learn(s, ad), ad.origin))
  {
    var s1 := Learn(s, ad);
    var s2 := Revive(s1, ad.origin);
    assert forall k :: k in s2.lsas ==> k in s1.lsas && (k != s.nid ==> s2.lsas[k] == s1.lsas[k]);
    forall i | 0 <= i < |s2.nbs|
      ensures !s2.nbs[i].val.valid <==> s2.nbs[i].key in s2.lsas && !s2.lsas[s2.nbs[i].key].valid
    {
      if s.nbs[i].key == ad.origin {
        assert !s.nbs[i].val.valid ==> IsDown(s1.nbs, ad.origin);
      }
    }
  }

  lemma AdFlags(s: Node, ev: Event)
    requires Enabled(s, ev) && FlagsOk(s) && OwnOk(s) && ev.Deliver? && ev.packet.Ad?
    ensures FlagsOk(Step(s, ev)) && OwnOk(Step(s, ev))
  {
    if Accepts(s, ev) {
      ReviveFlags(s, ev.packet);
      ReviveOwn(s, ev.packet);
      assert Step(s, ev).nbs == Revive(Learn(s, ev.packet), ev.packet.origin).nbs;
      assert Step(s, ev).lsas == Revive(Learn(s, ev.packet), ev.packet.origin).lsas;
    }
  }

  lemma ReviveOwn(s: Node, ad: Packet)
    requires OwnOk(s) && ad.Ad? && ad.origin != s.nid
    ensures OwnOk(Revive(Learn(s, ad), ad.origin))
  {
  }

  lemma OtherFlags(s: Node, ev: Event)
    requires Enabled(s, ev) && FlagsOk(s) && OwnOk(s) && !ev.Tick? && !(ev.Deliver? && ev.packet.Ad?)
    ensures FlagsOk(Step(s, ev)) && OwnOk(Step(s, ev))
  {
  }

  lemma StepFlags(s: Node, ev: Event)
    requires Enabled(s, ev) && FlagsOk(s) && OwnOk(s)
    ensures FlagsOk(Step(s, ev)) && OwnOk(Step(s, ev))
  {
    if ev.Tick? {
      AgeFlags(s, ev.elapsed);
      TickOwn(s, ev.elapsed);
    } else if ev.Deliver? && ev.packet.Ad? {
      AdFlags(s, ev);
    } else {
      OtherFlags(s, ev);
    }
  }

  lemma SetNoneValid(nbs: seq<Entry<nat, Neighbour>>, ids: set<nat>, valid: bool)
    requires forall i :: 0 <= i < |nbs| ==> nbs[i].key !in ids
    ensures SetValid(nbs, ids, valid) == nbs
  {
  }

  lemma TickOwn(s: Node, elapsed: int)
    requires OwnOk(s) && FlagsOk(s) && |s.pend| == PEND_ACK_BUCKET_SIZE
    ensures OwnOk(TimeOut(s, elapsed))
    ensures FlagsOk(AgeLsas(s, elapsed)) ==> FlagsOk(TimeOut(s, elapsed))
  {
    if !NbExpires(s, elapsed) {
      SetNoneValid(s.nbs, Expired(s, elapsed), false);
    }
    var s2 := AfterExpiry(s, elapsed);
    assert OwnOk(s2);
  }

  // ---------------------------------------------------------------- directory

  lemma TickDir(s: Node, elapsed: int)
    requires OwnOk(s)
    ensures DirComplete(s) ==> DirComplete(TimeOut(s, elapsed))
    ensures DirSound(s) ==> DirSound(TimeOut(s, elapsed))
  {
    var s1, s' := AgeLsas(s, elapsed), TimeOut(s, elapsed);
    assert s'.dir == s1.dir;
    forall n, o
      ensures Lists(s', n, o) <==> Lists(s, n, o) && n !in Expired(s, elapsed)
      ensures Maps(s1.dir, o, n) <==> Maps(s.dir, o, n) && !(n in Expired(s, elapsed) && o in s.lsas[n].body.objs)
    {
      WithoutObjsMaps(s.dir, Expired(s, elapsed), s.lsas, o, n);
    }
  }

  lemma AcceptDir(s: Node, ev: Event)
    requires Enabled(s, ev) && Accepts(s, ev) && OwnOk(s)
    ensures var s' := Step(s, ev);
      && (forall n, o :: Lists(s', n, o) <==>
        if n == ev.packet.origin then o in ev.packet.body.objs else Lists(s, n, o))
      && (forall n, o :: Maps(s'.dir, o, n) <==>
        Maps(s.dir, o, n) || (n == ev.packet.origin && o in ev.packet.body.objs))
  {
    var s' := Step(s, ev);
    assert s'.dir == Learn(s, ev.packet).dir;
    AcceptEffect(s, ev);
    forall n, o
      ensures Maps(s'.dir, o, n) <==> Maps(s.dir, o, n) || (n == ev.packet.origin && o in ev.packet.body.objs)
    {
      AddObjsMaps(s.dir, ev.packet.body.objs, ev.packet.origin, o, n);
    }
  }

  lemma FileDir(s: Node, ev: Event)
    requires Enabled(s, ev) && ev.AddFile? && ev.name !in s.files && OwnOk(s)
    ensures var s' := Step(s, ev);
      && (forall n, o :: Lists(s', n, o) <==> if n == s.nid then o in ev.filesAfter else Lists(s, n, o))
      && (forall n, o :: Maps(s'.dir, o, n) <==> Maps(s.dir, o, n) || (n == s.nid && o in ev.filesAfter))
      && (forall o :: o in s.files ==> o in ev.filesAfter)
  {
    var s' := Step(s, ev);
    assert s'.dir == AddObjs(s.dir, ev.filesAfter, s.nid);
    forall n, o
      ensures Maps(s'.dir, o, n) <==> Maps(s.dir, o, n) || (n == s.nid && o in ev.filesAfter)
    {
      AddObjsMaps(s.dir, ev.filesAfter, s.nid, o, n);
    }
    forall o | o in s.files
      ensures o in ev.filesAfter
    {
      assert o in multiset(s.files) && o in multiset(ev.filesAfter);
    }
  }

  /** Any other event leaves directory, object lists and validity alone. */
  lemma OtherDir(s: Node, ev: Event)
    requires Enabled(s, ev) && OwnOk(s) && !ev.Tick? && !Accepts(s, ev) && !(ev.AddFile? && ev.name !in s.files)
    ensures Step(s, ev).dir == s.dir && forall n, o :: Lists(Step(s, ev), n, o) <==> Lists(s, n, o)
  {
    SameBodies(s, ev);
  }

  lemma SameBodies(s: Node, ev: Event)
    requires Enabled(s, ev) && OwnOk(s) && !ev.Tick? && !Accepts(s, ev) && !(ev.AddFile? && ev.name !in s.files)
    ensures var s' := Step(s, ev);
      && s'.dir == s.dir && s'.lsas.Keys == s.lsas.Keys
      && forall n :: n in s.lsas ==> s'.lsas[n].valid == s.lsas[n].valid && s'.lsas[n].body == s.lsas[n].body
  {
  }

  lemma StepDir(s: Node, ev: Event)
    requires Enabled(s, ev) && OwnOk(s) && DirComplete(s)
    ensures DirComplete(Step(s, ev))
  {
    if ev.Tick? {
      TickDir(s, ev.elapsed);
    } else if Accepts(s, ev) {
      AcceptDir(s, ev);
    } else if ev.AddFile? && ev.name !in s.files {
      FileDir(s, ev);
    } else {
      OtherDir(s, ev);
    }
  }

  /** Neighbour flags, own LSA and directory stay right under every event. */
  lemma StepLocal(s: Node, ev: Event)
    requires Enabled(s, ev) && LocalOk(s)
    ensures LocalOk(Step(s, ev))
  {
    StepFlags(s, ev);
    StepDir(s, ev);
    StepSelf(s, ev);
  }

  /** The own line stays in the neighbour table. */
  lemma StepSelf(s: Node, ev: Event)
    requires Enabled(s, ev) && IsNb(s.nbs, s.nid)
    ensures IsNb(Step(s, ev).nbs, Step(s, ev).nid)
  {
    Frame(s, ev);
    var i :| 0 <= i < |s.nbs| && s.nbs[i].key == s.nid;
    assert Step(s, ev).nbs[i].key == s.nid;
  }

  lemma BootLocal(nid: nat, timers: Timers, nbs: seq<Entry<nat, Neighbour>>, files: seq<string>)
    requires forall i, j :: 0 <= i < j < |nbs| ==> nbs[i].key != nbs[j].key
    requires IsNb(nbs, nid) && forall i :: 0 <= i < |nbs| ==> nbs[i].val.valid
    ensures LocalOk(Boot(nid, timers, nbs, files)) && DirSound(Boot(nid, timers, nbs, files))
  {
    var s := Boot(nid, timers, nbs, files);
    forall n, o
      ensures Maps(s.dir, o, n) <==> Lists(s, n, o)
    {
      AddObjsMaps(map[], files, nid, o, n);
    }
  }

  /** The old objects stay in the directory when a newer LSA replaces a valid one: the directory remains
      exactly the objects of valid LSAs if and only if the newer LSA drops none of them. */
  lemma DirectoryExact(s: Node, ev: Event)
    requires Enabled(s, ev) && OwnOk(s) && DirComplete(s) && DirSound(s)
    ensures DirSound(Step(s, ev)) <==>
      (Accepts(s, ev) && ev.packet.origin in s.lsas && s.lsas[ev.packet.origin].valid ==>
        forall o :: o in s.lsas[ev.packet.origin].body.objs ==> o in ev.packet.body.objs)
  {
    var s' := Step(s, ev);
    if ev.Tick? {
      TickDir(s, ev.elapsed);
    } else if Accepts(s, ev) {
      AcceptDir(s, ev);
      var n := ev.packet.origin;
      if o :| Lists(s, n, o) && o !in ev.packet.body.objs {
        assert Maps(s'.dir, o, n) && !Lists(s', n, o);
      }
    } else if ev.AddFile? && ev.name !in s.files {
      FileDir(s, ev);
    } else {
      OtherDir(s, ev);
    }
  }
}
