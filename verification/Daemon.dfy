/** The daemon's tables in the heap and the handlers that change them (src/client_info.c, src/lsa.c,
    src/sel_timeout.c, src/config.c). Every handler is proved to take the step of module Protocol. */
module Daemons {
  import opened HashTables
  import opened Types
  import opened Graphs
  import opened Dijkstra
  import opened RouteTables
  import opened Protocol
  import opened LocalState
  import opened Forests
  import opened Queries
  import opened PrefixTrees
  import opened DynArrays
  import opened Directories
  import opened Ageing

  ghost function KeysOf<V>(es: seq<Entry<string, V>>): (r: seq<string>)
    ensures |r| == |es|
  {
    seq(|es|, i requires 0 <= i < |es| => es[i].key)
  }

  lemma IsNbMember(es: seq<Entry<nat, Neighbour>>, id: nat)
    ensures IsNb(es, id) <==> id in MapOf(es)
  {
    if id in MapOf(es) {
      var i := MapOfIndex(es, id);
    }
    if IsNb(es, id) {
      var i :| 0 <= i < |es| && es[i].key == id;
      MapOfAt(es, i);
    }
  }

  lemma ConsAppend(p: Pending, a: seq<Pending>, b: seq<Pending>)
    ensures [p] + (a + b) == ([p] + a) + b
  {
  }

  lemma FloodAdsNext(nbs: seq<Entry<nat, Neighbour>>, i: nat, self: nat, origin: nat, except: Option<Addr>, lsa: Lsa,
          retran: int)
    requires i < |nbs|
    ensures FloodAds(nbs[..i + 1], self, origin, except, lsa, retran) ==
      (if Target(nbs[i], self, origin, except) then [AdFor(origin, lsa, nbs[i].val.Address(), retran)] else [])
      + FloodAds(nbs[..i], self, origin, except, lsa, retran)
  {
    assert nbs[..i + 1][..i] == nbs[..i];
  }

  lemma IsDownMember(es: seq<Entry<nat, Neighbour>>, id: nat)
    requires UniqueKeys(es)
    ensures IsDown(es, id) <==> id in MapOf(es) && !MapOf(es)[id].valid
  {
    if id in MapOf(es) {
      var i := MapOfIndex(es, id);
      MapOfAt(es, i);
    }
    if IsDown(es, id) {
      var i :| 0 <= i < |es| && es[i].key == id && !es[i].val.valid;
      MapOfAt(es, i);
    }
  }

  lemma OneAddr(es: seq<Entry<nat, Neighbour>>, id: nat)
    requires UniqueKeys(es)
    ensures AddrsOf(es, {id}) == if id in MapOf(es) then {MapOf(es)[id].Address()} else {}
  {
    forall i | 0 <= i < |es| && es[i].key == id
      ensures id in MapOf(es) && es[i].val == MapOf(es)[id]
    {
      MapOfAt(es, i);
    }
    if id in MapOf(es) {
      var i := MapOfIndex(es, id);
      assert es[i].val.Address() in AddrsOf(es, {id});
    }
  }

  lemma ListedInDir(s: Node, k: nat)
    requires DirComplete(s) && k in s.lsas && s.lsas[k].valid
    ensures forall o :: o in s.lsas[k].body.objs ==> o in s.dir
  {
    forall o | o in s.lsas[k].body.objs
      ensures o in s.dir
    {
      assert Lists(s, k, o);
      assert Maps(s.dir, o, k);
    }
  }

  /** Exactly the first i entries have been seen. */
  ghost predicate SeenTo(es: seq<Entry<nat, Lsa>>, i: nat, seen: set<nat>)
  {
    forall j :: 0 <= j < |es| ==> (es[j].key in seen <==> j < i)
  }

  lemma SeenNext(es: seq<Entry<nat, Lsa>>, i: nat, seen: set<nat>)
    requires UniqueKeys(es) && i < |es| && SeenTo(es, i, seen)
    ensures SeenTo(es, i + 1, seen + {es[i].key}) && es[i].key !in seen
    ensures es[i].key in MapOf(es) && MapOf(es)[es[i].key] == es[i].val
  {
    MapOfAt(es, i);
    forall j | 0 <= j < |es| && j != i
      ensures es[j].key != es[i].key
    {
      UniqueAt(es, if j < i then j else i, if j < i then i else j);
    }
  }

  lemma AllSeen(es: seq<Entry<nat, Lsa>>, seen: set<nat>)
    requires SeenTo(es, |es|, seen)
    ensures MapOf(es).Keys <= seen
  {
    forall k | k in MapOf(es)
      ensures k in seen
    {
      var i := MapOfIndex(es, k);
    }
  }

  lemma PassNext(es: seq<Entry<nat, Lsa>>, i: nat, s: Node, elapsed: int, seen: set<nat>)
    requires UniqueKeys(es) && MapOf(es) == s.lsas && i < |es| && SeenTo(es, i, seen)
    ensures var k := es[i].key;
      && SeenTo(es, i + 1, seen + {k}) && k !in seen && k in s.lsas && s.lsas[k] == es[i].val
      && (SomeExpired(s, elapsed, seen + {k}) <==> SomeExpired(s, elapsed, seen) || Expires(s, k, elapsed))
      && (SomeNbExpired(s, elapsed, seen + {k}) <==>
        SomeNbExpired(s, elapsed, seen) || (Expires(s, k, elapsed) && IsNb(s.nbs, k)))
  {
    SeenNext(es, i, seen);
    SomeMore(s, elapsed, seen, es[i].key);
  }

  lemma PassDone(es: seq<Entry<nat, Lsa>>, s: Node, elapsed: int, seen: set<nat>)
    requires MapOf(es) == s.lsas && SeenTo(es, |es|, seen)
    ensures AgedTo(s, elapsed, seen) == AgeLsas(s, elapsed)
    ensures SomeExpired(s, elapsed, seen) <==> Expired(s, elapsed) != {}
    ensures SomeNbExpired(s, elapsed, seen) <==> NbExpires(s, elapsed)
  {
    AllSeen(es, seen);
    AgedToAll(s, elapsed, seen);
    SomeOfAll(s, elapsed, seen);
  }

  lemma DistinctKeys(es: seq<Entry<nat, Neighbour>>)
    requires UniqueKeys(es)
    ensures forall i, j :: 0 <= i < j < |es| ==> es[i].key != es[j].key
  {
    forall i, j | 0 <= i < j < |es|
      ensures es[i].key != es[j].key
    {
      UniqueAt(es, i, j);
    }
  }

  lemma NoEmptyName(es: seq<Entry<string, string>>)
    requires "" !in MapOf(es)
    ensures "" !in KeysOf(es)
  {
    if "" in KeysOf(es) {
      var i :| 0 <= i < |es| && es[i].key == "";
      MapOfAt(es, i);
    }
  }

  lemma BootFacts(nid: nat, timers: Timers, nbs: seq<Entry<nat, Neighbour>>, files: seq<Entry<string, string>>)
    requires UniqueKeys(nbs) && nid in MapOf(nbs) && "" !in MapOf(files)
    requires forall i :: 0 <= i < |nbs| ==> nbs[i].val.valid
    ensures "" !in KeysOf(files) && LocalOk(Boot(nid, timers, nbs, KeysOf(files)))
  {
    NoEmptyName(files);
    DistinctKeys(nbs);
    IsNbMember(nbs, nid);
    BootLocal(nid, timers, nbs, KeysOf(files));
  }

  const ENTRY_EXISTS := -2
  const OBJ_NAME_LEN := 9
  const MAX_FILE_PATH := 255

  /** The buffers of a file entry hold this name and this path. */
  predicate FitsEntry(name: string, path: string)
  {
    |name| <= OBJ_NAME_LEN && |path| <= MAX_FILE_PATH
  }

  lemma KeysOfHas(es: seq<Entry<string, string>>, name: string)
    ensures name in KeysOf(es) <==> name in MapOf(es)
  {
    if name in MapOf(es) {
      var i := MapOfIndex(es, name);
      assert KeysOf(es)[i] == name;
    }
    if name in KeysOf(es) {
      var i :| 0 <= i < |es| && es[i].key == name;
      MapOfAt(es, i);
    }
  }

  lemma SameFiles(s: Node, es: seq<Entry<string, string>>, name: string)
    requires s.files == KeysOf(es) && s.nid in s.lsas && |s.pend| == PEND_ACK_BUCKET_SIZE
    ensures name in s.files <==> name in MapOf(es)
    ensures name in s.files ==> Enabled(s, AddFile(name, s.files)) && Step(s, AddFile(name, s.files)) == s
  {
    KeysOfHas(es, name);
  }

  lemma TickLocal(s: Node, elapsed: int)
    requires LocalOk(s) && |s.pend| == PEND_ACK_BUCKET_SIZE
    ensures LocalOk(TimeOut(s, elapsed)) && Enabled(s, Event.Tick(elapsed))
    ensures Step(s, Event.Tick(elapsed)) == TimeOut(s, elapsed)
  {
    StepLocal(s, Event.Tick(elapsed));
  }

  lemma KeysOfInserted(es: seq<Entry<string, string>>, es': seq<Entry<string, string>>, name: string, path: string)
    requires InsertedInto(es, es', Entry(name, path))
    ensures multiset(KeysOf(es')) == multiset(KeysOf(es)) + multiset{name}
    ensures forall o :: o in KeysOf(es') <==> o in KeysOf(es) || o == name
  {
    var i :| 0 <= i <= |es| && es' == es[..i] + [Entry(name, path)] + es[i..];
    var k := KeysOf(es);
    assert KeysOf(es') == k[..i] + [name] + k[i..];
    assert k == k[..i] + k[i..];
    assert forall o :: o in KeysOf(es') <==> o in multiset(KeysOf(es'));
  }

  lemma NoEmptyFile(s: Node, f: Forest)
    requires LocalOk(s) && Represents(f, s.dir)
    ensures "" !in s.files
  {
    assert "" in s.files ==> Lists(s, s.nid, "");
    assert !Maps(s.dir, "", s.nid);
  }

  /** What a new file means for the state as a whole. */
  lemma FileAdded(s: Node, es: seq<Entry<string, string>>, es': seq<Entry<string, string>>, name: string, path: string,
                  f: Forest, table: seq<RouteEntry>)
    requires LocalOk(s) && |s.pend| == PEND_ACK_BUCKET_SIZE && Represents(f, s.dir) && RoutesFor(table, s)
    requires s.files == KeysOf(es) && name !in s.files && name != "" && InsertedInto(es, es', Entry(name, path))
    ensures var ev := AddFile(name, KeysOf(es'));
      && "" !in KeysOf(es') && Enabled(s, ev) && Step(s, ev) == NewFile(s, KeysOf(es'))
      && LocalOk(Step(s, ev)) && RoutesFor(table, Step(s, ev))
  {
    var ev := AddFile(name, KeysOf(es'));
    KeysOfInserted(es, es', name, path);
    NoEmptyFile(s, f);
    EventKept(table, s, ev);
  }

  ghost function Spreading(s: Node, ad: Packet, from: Addr): Node
    requires ad.Ad? && s.nid in s.lsas && ad.origin in s.lsas
  {
    var r := Revive(s, ad.origin);
    Enqueue(if ad.ttl - 1 > 0 then Flood(r, ad.origin, Some(from)) else r, from, Ack(ad.origin, ad.seqNum))
  }

  lemma SpreadingIs(s: Node, ad: Packet, from: Addr)
    requires ad.Ad? && s.nid in s.lsas && ad.origin != s.nid
    ensures Spreading(Learn(s, ad), ad, from) == Enqueue(Accept(s, ad, from), from, Ack(ad.origin, ad.seqNum))
  {
  }

  class Daemon {
    const nid: nat
    const timers: Timers
    const nbs: HashTable<nat, Neighbour>
    const lsas: HashTable<nat, Lsa>
    /** Object names and file paths. */
    const files: HashTable<string, string>
    const routes: RouteTable
    const tree: PrefixTree
    var pend: seq<seq<Pending>>
    var queue: seq<Pending>
    var advLeft: int
    /** The map that the tree stands for, and every advertisement ever queued. */
    ghost var dir: map<string, set<nat>>
    ghost var made: seq<Pending>

    ghost predicate TablesOk()
      reads this`pend, nbs, lsas, files
    {
      && nbs.Valid() && lsas.Valid() && files.Valid()
      && |pend| == PEND_ACK_BUCKET_SIZE && nid in lsas.Model()
    }

    ghost function State(): Node
      reads this, nbs, lsas, files
    {
      Node(nid, timers, nbs.Entries(), lsas.Model(), KeysOf(files.Entries()), dir, queue, pend, advLeft, made)
    }

    /** The tree holds the directory map, and its objects belong to it alone. */
    ghost predicate DirOk()
      reads this`dir, tree, tree.view.nodes, tree.view.arrays, tree.view.cells
      reads tree.alPre, if tree.alPre == null then {} else {tree.alPre.arr}
    {
      tree.Valid() && Represents(tree.view.forest, dir)
    }

    ghost predicate Valid()
      reads this, nbs, lsas, files, routes, tree, tree.view.nodes, tree.view.arrays, tree.view.cells
      reads tree.alPre, if tree.alPre == null then {} else {tree.alPre.arr}
    {
      TablesOk() && DirOk() && RoutesFor(routes.table, State()) && LocalOk(State())
    }

    /** The tables as main loads them. */
    constructor (nid: nat, timers: Timers, nbs: HashTable<nat, Neighbour>, files: HashTable<string, string>)
      requires nbs.Valid() && files.Valid()
      ensures this.nid == nid && this.timers == timers && this.nbs == nbs && this.files == files
      ensures Blank() && DirOk() && tree.view == View(Empty, Nil, {}, {}, {}, {}) && tree.scratch == {}
      ensures fresh(lsas) && fresh(routes) && fresh(tree)
    {
      this.nid, this.timers, this.nbs, this.files := nid, timers, nbs, files;
      lsas := new HashTable<nat, Lsa>(100, (k: nat) => k);
      routes := new RouteTable();
      tree := new PrefixTree();
      queue, pend, made := [], seq(PEND_ACK_BUCKET_SIZE, _ => []), [];
      advLeft := timers.adv;
      dir := map[];
      new;
      EmptyRepresents();
    }

    /** Nothing has been received or sent yet. */
    ghost predicate Blank()
      reads this, nbs, lsas, files
    {
      && nbs.Valid() && lsas.Valid() && files.Valid() && lsas.Model() == map[] && dir == map[]
      && pend == seq(PEND_ACK_BUCKET_SIZE, _ => []) && queue == [] && made == [] && advLeft == timers.adv
    }

    /** init_lsa. */
    method InitLsa()
      requires Blank() && DirOk()
      modifies lsas
      ensures TablesOk() && DirOk()
      ensures State() ==
        old(State()).(lsas := map[nid := Lsa(true, timers.lsa, LSA_MAX_TTL, 0, LocalBody(old(State())))])
    {
      InitLocalLsa(0);
    }

    /** The own objects are the first in the tree. */
    method LearnOwn()
      requires TablesOk() && DirOk() && "" !in lsas.Model()[nid].body.objs
      modifies this`dir, tree`root, tree`view, tree.view.nodes, tree.view.arrays, tree.view.cells
      ensures TablesOk() && DirOk()
      ensures State() == old(State()).(dir := AddObjs(old(dir), lsas.Model()[nid].body.objs, nid))
      ensures tree.Extends()
    {
      var own := OwnBody();
      LearnOn(nid, own);
    }

    method OwnBody() returns (body: Body)
      requires TablesOk() && DirOk()
      ensures TablesOk() && DirOk() && tree.view == old(tree.view) && State() == old(State())
      ensures body == State().lsas[nid].body
    {
      var own := lsas.Find(nid);
      body := own.value.body;
    }

    /** Nothing of that concerns the tables. */
    method LearnOn(n: nat, body: Body)
      requires TablesOk() && DirOk() && "" !in body.objs
      modifies this`dir, tree`root, tree`view, tree.view.nodes, tree.view.arrays, tree.view.cells
      ensures TablesOk() && DirOk() && State() == old(State()).(dir := AddObjs(old(dir), body.objs, n))
      ensures tree.Extends()
    {
      LearnObjs(n, body);
    }

    method InitTables() returns (ghost news: set<object>)
      requires Blank() && DirOk() && "" !in KeysOf(files.Entries()) && nid != NO_HOP
      modifies this`dir, lsas, tree`root, tree`view, tree.view.nodes, tree.view.arrays, tree.view.cells
      ensures TablesOk() && DirOk() && lsas.Model().Keys == {nid}
      ensures Flood(State(), nid, None) == Boot(nid, timers, nbs.Entries(), KeysOf(files.Entries()))
      ensures tree.Gains(news)
    {
      ghost var v := tree.view;
      InitLsa();
      assert lsas.Model().Keys == {nid} && tree.view == v;
      label L:
      LearnOwn();
      news := tree.view.repr - v.repr;
      assert fresh@L(news);
    }

    method UpdateRoutes()
      requires TablesOk() && |lsas.Model().Keys| <= GRAPHSIZE && NO_HOP !in lsas.Model()
      modifies routes
      ensures RoutesFor(routes.table, State())
    {
      routes.UpdateRouteInfo(nid, nbs, lsas);
    }

    /** A flood leaves routes, directory and all but the own number alone. */
    method FloodOn(origin: nat, except: Option<Addr>)
      requires TablesOk() && RoutesFor(routes.table, State()) && origin in lsas.Model()
      modifies this`queue, this`made, lsas
      ensures TablesOk() && RoutesFor(routes.table, State())
      ensures State() == Flood(old(State()), origin, except)
    {
      RoutesFlood(routes.table, State(), origin, except);
      PrepFlood(origin, except);
    }

    /** The first routing table and the first flood. */
    method StartRouting()
      requires TablesOk() && |lsas.Model().Keys| <= GRAPHSIZE && NO_HOP !in lsas.Model()
      modifies this`queue, this`made, lsas, routes
      ensures TablesOk() && RoutesFor(routes.table, State()) && State() == Flood(old(State()), nid, None)
    {
      UpdateRoutes();
      FloodOn(nid, None);
    }

    /** Nothing of that concerns the tree. */
    method StartRoutingOn()
      requires TablesOk() && DirOk() && lsas.Model().Keys == {nid} && nid != NO_HOP
      modifies this`queue, this`made, lsas, routes
      ensures tree.view == old(tree.view) && tree.scratch == old(tree.scratch)
      ensures TablesOk() && DirOk()
      ensures RoutesFor(routes.table, State()) && State() == Flood(old(State()), nid, None)
    {
      StartRouting();
    }

    /** From loaded tables to the state before the event loop: the own LSA is made, routed and queued for all. */
    method Start() returns (ghost news: set<object>)
      requires Blank() && DirOk() && nid != NO_HOP && "" !in files.Model() && nid in nbs.Model()
      requires forall i :: 0 <= i < |nbs.Entries()| ==> nbs.Entries()[i].val.valid
      modifies this`dir, this`queue, this`made, lsas, routes
      modifies tree`root, tree`view, tree.view.nodes, tree.view.arrays, tree.view.cells
      ensures Valid()
      ensures State() == Boot(nid, timers, nbs.Entries(), KeysOf(files.Entries()))
      ensures tree.Gains(news)
    {
      BootFacts(nid, timers, nbs.Entries(), files.Entries());
      news := StartTables();
    }

    method StartTables() returns (ghost news: set<object>)
      requires Blank() && DirOk() && nid != NO_HOP && "" !in KeysOf(files.Entries())
      modifies this`dir, this`queue, this`made, lsas, routes
      modifies tree`root, tree`view, tree.view.nodes, tree.view.arrays, tree.view.cells
      ensures TablesOk() && DirOk() && RoutesFor(routes.table, State())
      ensures State() == Boot(nid, timers, nbs.Entries(), KeysOf(files.Entries()))
      ensures tree.Gains(news)
    {
      news := InitTables();
      StartRoutingOn();
    }

    /** The objects of one LSA join the tree and the map. */
    method LearnObjs(n: nat, body: Body)
      requires DirOk() && "" !in body.objs
      modifies this`dir, tree`root, tree`view, tree.view.nodes, tree.view.arrays, tree.view.cells
      ensures DirOk() && dir == AddObjs(old(dir), body.objs, n)
      ensures tree.Extends()
    {
      AddObjFromLsa(tree, n, body, dir);
      dir := AddObjs(dir, body.objs, n);
    }

    // -------------------------------------------------------------- flooding

    /** One advertisement of the LSA for every neighbour that should have it. */
    method QueueAds(origin: nat, except: Option<Addr>, lsa: Lsa)
      requires nbs.Valid()
      modifies this`queue, this`made
      ensures queue == FloodAds(nbs.Entries(), nid, origin, except, lsa, timers.retran) + old(queue)
      ensures made == FloodAds(nbs.Entries(), nid, origin, except, lsa, timers.retran) + old(made)
    {
      var es := nbs.Walk();
      ghost var ads: seq<Pending> := [];
      for i := 0 to |es|
        invariant ads == FloodAds(es[..i], nid, origin, except, lsa, timers.retran)
        invariant queue == ads + old(queue) && made == ads + old(made)
      {
        FloodAdsNext(es, i, nid, origin, except, lsa, timers.retran);
        var nb := es[i].val;
        if !nb.valid {
          continue;
        }
        if es[i].key != nid && es[i].key != origin {
          if except == Some(nb.Address()) {
            continue;
          }
          var ad := AdFor(origin, lsa, nb.Address(), timers.retran);
          queue, made := [ad] + queue, [ad] + made;
          ConsAppend(ad, ads, old(queue));
          ConsAppend(ad, ads, old(made));
          ads := [ad] + ads;
        }
      }
      assert es[..|es|] == es;
    }

    /** prep_flood_lsa. */
    method PrepFlood(origin: nat, except: Option<Addr>)
      requires TablesOk() && origin in lsas.Model()
      modifies this`queue, this`made, lsas
      ensures TablesOk() && State() == Flood(old(State()), origin, except)
    {
      var p := lsas.Find(origin);
      QueueAds(origin, except, p.value);
      assert TablesOk() && lsas.Model() == old(lsas.Model()) && nbs.Entries() == old(nbs.Entries());
      if origin == nid {
        CountUp(p.value);
      }
    }

    /** The next own sequence number. */
    method CountUp(own: Lsa)
      requires TablesOk()
      modifies lsas
      ensures TablesOk() && State() == old(State()).(lsas := old(lsas.Model())[nid := own.(seqNum := own.seqNum + 1)])
    {
      lsas.Store(nid, own.(seqNum := own.seqNum + 1));
    }

    /** clnt_prep_flood_lc_lsa and reset_adv_time. */
    method AdvertiseLocal()
      requires TablesOk()
      modifies this`queue, this`made, this`advLeft, lsas
      ensures TablesOk() && State() == Advertise(old(State()))
    {
      PrepFlood(nid, None);
      advLeft := timers.adv;
    }

    // -------------------------------------------------------------- LSA table

    method LocalLinks() returns (links: seq<nat>)
      requires nbs.Valid()
      ensures links == LiveLinks(nbs.Entries(), nid)
    {
      var es := nbs.Walk();
      links := [];
      for i := 0 to |es|
        invariant links == LiveLinks(es[..i], nid)
      {
        assert es[..i + 1][..i] == es[..i];
        if es[i].key != nid && es[i].val.valid {
          links := links + [es[i].key];
        }
      }
      assert es[..|es|] == es;
    }

    method LocalObjs() returns (objs: seq<string>)
      requires files.Valid()
      ensures objs == KeysOf(files.Entries())
    {
      var es := files.Walk();
      objs := [];
      for i := 0 to |es|
        invariant objs == KeysOf(es)[..i]
      {
        objs := objs + [es[i].key];
      }
    }

    /** init_local_lsa: the own LSA is put into the table, where it is not. */
    method InitLocalLsa(seqNum: nat)
      requires nbs.Valid() && lsas.Valid() && files.Valid() && nid !in lsas.Model()
      modifies lsas
      ensures lsas.Valid()
      ensures lsas.Model() == old(lsas.Model())[nid :=
                Lsa(true, timers.lsa, LSA_MAX_TTL, seqNum,
                    Body(LiveLinks(nbs.Entries(), nid), KeysOf(files.Entries())))]
    {
      var links := LocalLinks();
      var objs := LocalObjs();
      lsas.Insert(nid, Lsa(true, timers.lsa, LSA_MAX_TTL, seqNum, Body(links, objs)));
    }

    method ReloadLocalLsa()
      requires TablesOk()
      modifies lsas
      ensures TablesOk() && State() == Reload(old(State()))
    {
      var p := lsas.Find(nid);
      lsas.Remove(nid);
      InitLocalLsa(p.value.seqNum);
    }

    method LifeOf(origin: nat) returns (left: int)
      requires nbs.Valid()
      ensures left == if IsNb(nbs.Entries(), origin) then timers.nb else timers.lsa
    {
      IsNbMember(nbs.Entries(), origin);
      var nb := nbs.Find(origin);
      left := if nb.Some? then timers.nb else timers.lsa;
    }

    /** update_lsa_entr. */
    method UpdateLsaEntr(ad: Packet)
      requires TablesOk() && ad.Ad? && ad.origin != nid
      modifies lsas
      ensures TablesOk()
      ensures lsas.Model() == old(lsas.Model())[ad.origin :=
                Lsa(true, if IsNb(nbs.Entries(), ad.origin) then timers.nb else timers.lsa, LessOne(ad.ttl),
                    ad.seqNum, ad.body)]
    {
      DropLsa(ad.origin);
      var left := LifeOf(ad.origin);
      lsas.Insert(ad.origin, Lsa(true, left, LessOne(ad.ttl), ad.seqNum, ad.body));
    }

    method DropLsa(origin: nat)
      requires TablesOk() && origin != nid
      modifies lsas
      ensures TablesOk() && lsas.Model() == old(lsas.Model()) - {origin}
    {
      var p := lsas.Find(origin);
      if p.Some? {
        lsas.Remove(origin);
      }
    }

    method UpdateSeqNum(origin: nat, seqNum: nat) returns (updated: bool)
      requires TablesOk()
      modifies lsas
      ensures TablesOk() && updated == (origin in old(lsas.Model()) && old(lsas.Model())[origin].seqNum < seqNum)
      ensures State() == if updated then Raise(old(State()), origin, seqNum) else old(State())
    {
      var p := lsas.Find(origin);
      updated := p.Some? && p.value.seqNum < seqNum;
      if updated {
        lsas.Store(origin, p.value.(seqNum := seqNum));
      }
    }

    // -------------------------------------------------------------- send list and pending-ACK table

    method Prep(dst: Addr, packet: Packet)
      modifies this`queue
      ensures State() == Enqueue(old(State()), dst, packet)
    {
      queue := [Pending(dst, 0, packet)] + queue;
    }

    /** remove_pd_ack: from the first entry of this origin in the bucket on, the first with this number and
        address goes, whoever its origin is. */
    method RemovePdAck(origin: nat, seqNum: nat, from: Addr)
      requires |pend| == PEND_ACK_BUCKET_SIZE
      modifies this`pend
      ensures pend == RemoveAck(old(pend), origin, seqNum, from)
    {
      var b := origin % PEND_ACK_BUCKET_SIZE;
      var chain, i := pend[b], 0;
      while i < |chain| && chain[i].packet.origin != origin
        invariant i <= |chain| && FirstFrom(chain, 0, origin) == FirstFrom(chain, i, origin)
      {
        i := i + 1;
      }
      ghost var first := i;
      while i < |chain| && (chain[i].packet.seqNum != seqNum || chain[i].dst != from)
        invariant i <= |chain| && FirstExact(chain, first, seqNum, from) == FirstExact(chain, i, seqNum, from)
      {
        i := i + 1;
      }
      if i < |chain| {
        pend := pend[b := chain[..i] + chain[i + 1..]];
      }
    }

    /** clnt_send_rd_info: sent advertisements move to the pending-ACK table. */
    method SendRdInfo()
      requires TablesOk()
      modifies this`queue, this`pend
      ensures TablesOk() && State() == Send(old(State()))
    {
      ghost var i := 0;
      while queue != []
        invariant i <= |old(queue)| && queue == old(queue)[i..]
        invariant |pend| == PEND_ACK_BUCKET_SIZE && pend == PendAll(old(pend), old(queue)[..i])
        decreases |queue|
      {
        assert old(queue)[..i + 1][..i] == old(queue)[..i];
        var p := queue[0];
        queue := queue[1..];
        if p.packet.Ad? {
          var b := p.packet.origin % PEND_ACK_BUCKET_SIZE;
          pend := pend[b := [p] + pend[b]];
        }
        i := i + 1;
      }
      assert old(queue)[..i] == old(queue);
    }

    /** clnt_rm_pd_ad_ann_by_addr. */
    method RmPdByAddr(addr: Addr)
      modifies this`pend
      ensures pend == AllNotTo(old(pend), {addr})
    {
      for b := 0 to |pend|
        invariant |pend| == |old(pend)|
        invariant forall c :: 0 <= c < b ==> pend[c] == NotTo(old(pend)[c], {addr})
        invariant forall c :: b <= c < |pend| ==> pend[c] == old(pend)[c]
      {
        var chain, kept := pend[b], [];
        for i := 0 to |chain|
          invariant kept == NotTo(chain[..i], {addr})
        {
          assert chain[..i + 1][..i] == chain[..i];
          if chain[i].dst != addr {
            kept := kept + [chain[i]];
          }
        }
        assert chain[..|chain|] == chain;
        pend := pend[b := kept];
      }
    }

    /** One bucket of process_retran_timeout: overdue entries go to the head of the send list. */
    method RetranBucket(b: nat, elapsed: int)
      requires b < |pend|
      modifies this`pend, this`queue
      ensures pend == old(pend)[b := Waiting(old(pend)[b], elapsed)]
      ensures queue == Overdue(old(pend)[b], elapsed, timers.retran) + old(queue)
    {
      var chain, kept := pend[b], [];
      for i := 0 to |chain|
        invariant pend == old(pend) && kept == Waiting(chain[..i], elapsed)
        invariant queue == Overdue(chain[..i], elapsed, timers.retran) + old(queue)
      {
        assert chain[..i + 1][..i] == chain[..i];
        var left := chain[i].timeLeft - elapsed;
        if left < 0 {
          queue := [chain[i].(timeLeft := timers.retran)] + queue;
        } else {
          kept := kept + [chain[i].(timeLeft := left)];
        }
      }
      assert chain[..|chain|] == chain;
      pend := pend[b := kept];
    }

    /** process_retran_timeout. */
    method ProcessRetranTimeout(elapsed: int)
      modifies this`pend, this`queue
      ensures State() == Retransmit(old(State()), elapsed)
    {
      for b := 0 to |pend|
        invariant |pend| == |old(pend)|
        invariant forall c :: 0 <= c < b ==> pend[c] == Waiting(old(pend)[c], elapsed)
        invariant forall c :: b <= c < |pend| ==> pend[c] == old(pend)[c]
        invariant queue == AllOverdue(old(pend)[..b], elapsed, timers.retran) + old(queue)
      {
        assert old(pend)[..b + 1][..b] == old(pend)[..b];
        RetranBucket(b, elapsed);
      }
      assert old(pend)[..|old(pend)|] == old(pend);
      assert pend == Retransmit(old(State()), elapsed).pend;
    }

    // -------------------------------------------------------------- datagrams

    /** update_lsa_entr and the objects of the new LSA. */
    method LearnAd(ad: Packet)
      requires TablesOk() && DirOk() && ad.Ad? && ad.origin != nid && "" !in ad.body.objs
      modifies this`dir, lsas, tree`root, tree`view, tree.view.nodes, tree.view.arrays, tree.view.cells
      ensures TablesOk() && DirOk() && State() == Learn(old(State()), ad)
      ensures lsas.Model().Keys == old(lsas.Model().Keys) + {ad.origin}
      ensures tree.Extends()
    {
      LearnOn(ad.origin, ad.body);
      UpdateLsaOn(ad);
    }

    /** Nothing of the LSA itself concerns the tree. */
    method UpdateLsaOn(ad: Packet)
      requires TablesOk() && DirOk() && ad.Ad? && ad.origin != nid
      modifies lsas
      ensures TablesOk() && DirOk() && State() == Learn(old(State()), ad).(dir := old(dir))
      ensures tree.view == old(tree.view) && tree.scratch == old(tree.scratch)
    {
      UpdateLsaEntr(ad);
    }

    method SetNb(id: nat, valid: bool)
      requires nbs.Valid() && id in nbs.Model()
      modifies nbs
      ensures nbs.Valid() && nbs.Entries() == SetValid(old(nbs.Entries()), {id}, valid)
    {
      var nb := nbs.Find(id);
      ghost var es := nbs.Entries();
      nbs.Store(id, nb.value.(valid := valid));
      forall i | 0 <= i < |es|
        ensures nbs.Entries()[i] == SetValid(es, {id}, valid)[i]
      {
        MapOfAt(es, i);
      }
    }

    /** A down neighbour that is heard of again. */
    method ReviveNb(id: nat)
      requires TablesOk()
      modifies nbs, lsas
      ensures TablesOk() && State() == Revive(old(State()), id)
    {
      IsDownMember(nbs.Entries(), id);
      var nb := nbs.Find(id);
      if nb.Some? && !nb.value.valid {
        SetNb(id, true);
        ReloadLocalLsa();
      }
    }

    /** The rest of an accepted advertisement: neighbour, routes, further flooding, acknowledgement. */
    method Spread(ad: Packet, from: Addr)
      requires TablesOk() && ad.Ad? && ad.origin in lsas.Model()
      requires |lsas.Model().Keys| <= GRAPHSIZE && NO_HOP !in lsas.Model()
      modifies this`queue, this`made, nbs, lsas, routes
      ensures TablesOk() && RoutesFor(routes.table, State())
      ensures State() == Spreading(old(State()), ad, from)
    {
      ReviveNb(ad.origin);
      UpdateRoutes();
      if ad.ttl - 1 > 0 {
        FloodOn(ad.origin, Some(from));
      }
      Prep(from, Ack(ad.origin, ad.seqNum));
    }

    /** Nothing of that concerns the tree. */
    method SpreadOn(ad: Packet, from: Addr)
      requires TablesOk() && DirOk() && ad.Ad? && ad.origin in lsas.Model()
      requires |lsas.Model().Keys| <= GRAPHSIZE && NO_HOP !in lsas.Model()
      modifies this`queue, this`made, nbs, lsas, routes
      ensures TablesOk() && DirOk() && RoutesFor(routes.table, State())
      ensures State() == Spreading(old(State()), ad, from)
      ensures tree.view == old(tree.view)
      ensures tree.scratch == old(tree.scratch)
    {
      Spread(ad, from);
    }

    method AcceptAd(ad: Packet, from: Addr)
      requires TablesOk() && DirOk() && ad.Ad? && ad.origin != nid && "" !in ad.body.objs && ad.origin != NO_HOP
      requires NO_HOP !in lsas.Model() && |lsas.Model().Keys + {ad.origin}| <= GRAPHSIZE
      modifies this`queue, this`made, this`dir, nbs, lsas, routes
      modifies tree`root, tree`view, tree.view.nodes, tree.view.arrays, tree.view.cells
      ensures TablesOk() && DirOk() && RoutesFor(routes.table, State())
      ensures State() == Enqueue(Accept(old(State()), ad, from), from, Ack(ad.origin, ad.seqNum))
      ensures tree.Extends()
    {
      SpreadingIs(State(), ad, from);
      LearnAd(ad);
      SpreadOn(ad, from);
    }

    method Reply(dst: Addr, packet: Packet)
      requires TablesOk() && DirOk() && RoutesFor(routes.table, State())
      modifies this`queue
      ensures TablesOk() && DirOk() && RoutesFor(routes.table, State()) && State() == Enqueue(old(State()), dst, packet)
    {
      ghost var s := State();
      Prep(dst, packet);
      RoutesSame(routes.table, s, State());
    }

    /** The AD branch of clnt_process_rt_inf; `p` is the stored LSA of the origin. */
    method ReceiveAd(ad: Packet, from: Addr, p: Option<Lsa>)
      requires TablesOk() && DirOk() && RoutesFor(routes.table, State())
      requires ad.Ad? && "" !in ad.body.objs && ad.origin != NO_HOP && |lsas.Model().Keys + {ad.origin}| <= GRAPHSIZE
      requires p == if ad.origin in lsas.Model() then Some(lsas.Model()[ad.origin]) else None
      modifies this`queue, this`made, this`dir, nbs, lsas, routes
      modifies tree`root, tree`view, tree.view.nodes, tree.view.arrays, tree.view.cells
      ensures TablesOk() && DirOk() && RoutesFor(routes.table, State())
      ensures State() == RecvAd(old(State()), ad, from)
      ensures tree.Extends()
    {
      if ad.origin == nid {
      } else if ad.seqNum == 0 && p.Some? && 0 < p.value.seqNum {
        Reply(from, Seq(ad.origin, p.value.seqNum));
      } else if p.None? || ad.seqNum > p.value.seqNum {
        AcceptAd(ad, from);
      } else {
        Reply(from, Ack(ad.origin, ad.seqNum));
      }
    }

    method FindLsa(origin: nat) returns (p: Option<Lsa>)
      requires TablesOk() && DirOk() && RoutesFor(routes.table, State())
      ensures TablesOk() && DirOk() && RoutesFor(routes.table, State()) && State() == old(State())
      ensures lsas.Model() == old(lsas.Model())
      ensures p == if origin in lsas.Model() then Some(lsas.Model()[origin]) else None
    {
      p := lsas.Find(origin);
    }

    method FindAndReceive(ad: Packet, from: Addr) returns (ghost news: set<object>)
      requires TablesOk() && DirOk() && RoutesFor(routes.table, State())
      requires ad.Ad? && "" !in ad.body.objs && ad.origin != NO_HOP && |lsas.Model().Keys + {ad.origin}| <= GRAPHSIZE
      modifies this`queue, this`made, this`dir, nbs, lsas, routes
      modifies tree`root, tree`view, tree.view.nodes, tree.view.arrays, tree.view.cells
      ensures TablesOk() && DirOk() && RoutesFor(routes.table, State())
      ensures State() == RecvAd(old(State()), ad, from)
      ensures tree.Gains(news)
    {
      ghost var v := tree.view;
      var p := FindLsa(ad.origin);
      assert tree.view == v;
      label L:
      ReceiveAd(ad, from, p);
      news := tree.view.repr - v.repr;
      assert fresh@L(news);
    }

    /** The SEQ branch of clnt_process_rt_inf. */
    method ReceiveSeq(origin: nat, seqNum: nat, from: Addr)
      requires TablesOk()
      modifies this`pend, this`queue, this`made, this`advLeft, lsas
      ensures TablesOk() && State() == RecvSeq(old(State()), origin, seqNum, from)
    {
      RemovePdAck(origin, 0, from);
      assert State() == old(State()).(pend := RemoveAck(old(pend), origin, 0, from));
      if origin != nid {
        var updated := UpdateSeqNum(origin, seqNum);
      } else {
        var updated := UpdateSeqNum(origin, seqNum + 1);
        if updated {
          AdvertiseLocal();
        }
      }
    }

    // -------------------------------------------------------------- events

    method OnAd(ad: Packet, from: Addr) returns (ghost news: set<object>)
      requires Valid() && ad.Ad? && "" !in ad.body.objs && ad.origin != NO_HOP
      requires |lsas.Model().Keys + {ad.origin}| <= GRAPHSIZE
      modifies this`queue, this`made, this`dir, nbs, lsas, routes
      modifies tree`root, tree`view, tree.view.nodes, tree.view.arrays, tree.view.cells
      ensures Valid()
      ensures State() == Step(old(State()), Deliver(ad, from))
      ensures tree.Gains(news)
    {
      StepLocal(State(), Deliver(ad, from));
      news := FindAndReceive(ad, from);
    }

    /** Nothing of that concerns the tree. */
    method ReceiveSeqOn(origin: nat, seqNum: nat, from: Addr)
      requires TablesOk() && DirOk()
      modifies this`pend, this`queue, this`made, this`advLeft, lsas
      ensures TablesOk() && DirOk() && State() == RecvSeq(old(State()), origin, seqNum, from)
    {
      ReceiveSeq(origin, seqNum, from);
    }

    method OnSeq(origin: nat, seqNum: nat, from: Addr)
      requires Valid()
      modifies this`pend, this`queue, this`made, this`advLeft, lsas
      ensures Valid() && State() == Step(old(State()), Deliver(Seq(origin, seqNum), from))
      ensures tree.view == old(tree.view) && tree.scratch == old(tree.scratch)
    {
      EventKept(routes.table, State(), Deliver(Seq(origin, seqNum), from));
      ReceiveSeqOn(origin, seqNum, from);
    }

    method OnAck(origin: nat, seqNum: nat, from: Addr)
      requires Valid()
      modifies this`pend
      ensures Valid() && State() == Step(old(State()), Deliver(Ack(origin, seqNum), from))
      ensures tree.view == old(tree.view) && tree.scratch == old(tree.scratch)
    {
      EventKept(routes.table, State(), Deliver(Ack(origin, seqNum), from));
      RemovePdAck(origin, seqNum, from);
    }

    /** clnt_process_rt_inf: any datagram. The origin of an advertisement is a real node id, its object names are
        not empty, and the graph arrays have room for it. */
    method ProcessRtInf(packet: Packet, from: Addr) returns (ghost news: set<object>)
      requires Valid()
      requires packet.Ad? ==>
        "" !in packet.body.objs && packet.origin != NO_HOP && |lsas.Model().Keys + {packet.origin}| <= GRAPHSIZE
      modifies this`pend, this`queue, this`made, this`advLeft, this`dir, nbs, lsas, routes
      modifies tree`root, tree`view, tree.view.nodes, tree.view.arrays, tree.view.cells
      ensures Valid()
      ensures State() == Step(old(State()), Deliver(packet, from))
      ensures tree.Gains(news)
    {
      news := {};
      match packet
      case Ack(origin, seqNum) => OnAck(origin, seqNum, from);
      case Ad(_, _, _, _) => news := OnAd(packet, from);
      case Seq(origin, seqNum) => OnSeq(origin, seqNum, from);
    }

    /** The send list is written out. */
    method OnWritable()
      requires Valid()
      modifies this`queue, this`pend
      ensures Valid() && State() == Step(old(State()), SendAll)
    {
      EventKept(routes.table, State(), SendAll);
      SendOn();
    }

    /** Nothing of that concerns the tree. */
    method SendOn()
      requires TablesOk() && DirOk()
      modifies this`queue, this`pend
      ensures TablesOk() && DirOk() && State() == Send(old(State()))
    {
      SendRdInfo();
    }

    // -------------------------------------------------------------- timers

    /** What the expiry of one LSA does to neighbours and pending-ACK table. */
    method NbDown(id: nat) returns (isNb: bool)
      requires TablesOk()
      modifies this`pend, nbs
      ensures TablesOk() && isNb == IsNb(old(nbs.Entries()), id) && State() == Downed(old(State()), id)
    {
      ghost var es := nbs.Entries();
      IsNbMember(es, id);
      var nb := nbs.Find(id);
      isNb := nb.Some?;
      OneAddr(es, id);
      if isNb {
        SetNb(id, false);
        RmPdByAddr(nb.value.Address());
      } else {
        AllNotToTwice(pend, {}, {});
        assert SetValid(es, {id}, false) == es;
      }
    }

    /** The objects of one LSA leave the tree and the map. */
    method UnlearnObjs(k: nat, body: Body)
      requires DirOk() && forall o :: o in body.objs ==> o in dir
      modifies this`dir, tree`view, tree.view.nodes, tree.view.arrays, tree.view.cells
      ensures DirOk() && tree.KeepsNodes() && dir == RmObjs(old(dir), body.objs, k)
      ensures tree.Extends()
    {
      var crash := RmObjFromLsa(tree, k, body, dir);
      dir := RmObjs(dir, body.objs, k);
    }

    /** An expired LSA: it is invalid, and its objects leave the tree. */
    method Expire(k: nat, lsa: Lsa, left: int)
      requires TablesOk() && DirOk() && k in lsas.Model() && forall o :: o in lsa.body.objs ==> o in dir
      modifies this`dir, lsas, tree`view, tree.view.nodes, tree.view.arrays, tree.view.cells
      ensures TablesOk() && DirOk() && tree.KeepsNodes()
      ensures State() == Expiring(old(State()), k, lsa, left)
      ensures tree.Extends()
    {
      StoreTime(k, lsa.(timeLeft := left, valid := false));
      UnlearnOn(k, lsa.body);
    }

    /** Nothing of that concerns the tables. */
    method UnlearnOn(k: nat, body: Body)
      requires TablesOk() && DirOk() && forall o :: o in body.objs ==> o in dir
      modifies this`dir, tree`view, tree.view.nodes, tree.view.arrays, tree.view.cells
      ensures TablesOk() && DirOk() && tree.KeepsNodes()
      ensures State() == old(State()).(dir := RmObjs(old(dir), body.objs, k))
      ensures tree.Extends()
    {
      UnlearnObjs(k, body);
    }

    /** An LSA whose time is up. */
    method ExpireWithNb(k: nat, lsa: Lsa, left: int) returns (nbDown: bool)
      requires TablesOk() && DirOk() && k in lsas.Model() && forall o :: o in lsa.body.objs ==> o in dir
      modifies this`pend, this`dir, nbs, lsas, tree`view, tree.view.nodes, tree.view.arrays, tree.view.cells
      ensures TablesOk() && DirOk() && tree.KeepsNodes()
      ensures State() == Downed(Expiring(old(State()), k, lsa, left), k) && nbDown == IsNb(old(nbs.Entries()), k)
      ensures tree.Extends()
    {
      Expire(k, lsa, left);
      nbDown := NbDownOn(k);
    }

    /** Nothing of that concerns the tree. */
    method NbDownOn(id: nat) returns (isNb: bool)
      requires TablesOk() && DirOk()
      modifies this`pend, nbs
      ensures TablesOk() && DirOk() && tree.view == old(tree.view)
      ensures isNb == IsNb(old(nbs.Entries()), id) && State() == Downed(old(State()), id)
    {
      isNb := NbDown(id);
    }

    /** One LSA of the expiry pass; `s` is the state before the pass. */
    method AgeOne(k: nat, lsa: Lsa, elapsed: int, ghost s: Node, ghost seen: set<nat>)
      returns (expired: bool, nbDown: bool)
      requires TablesOk() && DirOk() && s.nid == nid && State() == AgedTo(s, elapsed, seen)
      requires k in s.lsas && lsa == s.lsas[k] && k !in seen && DirComplete(s)
      modifies this`pend, this`dir, nbs, lsas, tree`view, tree.view.nodes, tree.view.arrays, tree.view.cells
      ensures TablesOk() && DirOk() && tree.KeepsNodes() && State() == AgedTo(s, elapsed, seen + {k})
      ensures expired == Expires(s, k, elapsed) && nbDown == (expired && IsNb(s.nbs, k))
      ensures tree.Extends()
    {
      expired, nbDown := false, false;
      var left := lsa.timeLeft - elapsed;
      if lsa.valid && k != nid && left < 0 {
        expired := true;
        ListedInDir(s, k);
        AgedNext(s, State(), elapsed, seen, k, lsa);
        nbDown := ExpireWithNb(k, lsa, left);
      } else {
        AgedKept(s, elapsed, seen, k);
        if lsa.valid && k != nid {
          StoreTime(k, lsa.(timeLeft := left));
        } else {
          assert State().lsas[k := lsa] == State().lsas;
        }
      }
    }

    method StoreTime(k: nat, lsa: Lsa)
      requires TablesOk() && DirOk() && k in lsas.Model()
      modifies lsas
      ensures TablesOk() && DirOk() && tree.view == old(tree.view)
      ensures State() == old(State()).(lsas := old(lsas.Model())[k := lsa])
    {
      lsas.Store(k, lsa);
    }

    /** One round of the expiry pass, with the timeout flags. */
    method AgeNext(es: seq<Entry<nat, Lsa>>, i: nat, elapsed: int, isLsa: bool, isNb: bool, ghost s: Node,
            ghost seen: set<nat>)
      returns (isLsa': bool, isNb': bool, ghost more: set<object>)
      requires UniqueKeys(es) && MapOf(es) == s.lsas && i < |es| && SeenTo(es, i, seen)
      requires TablesOk() && DirOk() && s.nid == nid && DirComplete(s) && State() == AgedTo(s, elapsed, seen)
      requires isLsa == SomeExpired(s, elapsed, seen) && isNb == SomeNbExpired(s, elapsed, seen)
      modifies this`pend, this`dir, nbs, lsas, tree`view, tree.view.nodes, tree.view.arrays, tree.view.cells
      ensures TablesOk() && DirOk() && tree.KeepsNodes()
      ensures var seen' := seen + {es[i].key};
        && SeenTo(es, i + 1, seen') && State() == AgedTo(s, elapsed, seen')
        && isLsa' == SomeExpired(s, elapsed, seen') && isNb' == SomeNbExpired(s, elapsed, seen')
      ensures tree.Gains(more)
    {
      PassNext(es, i, s, elapsed, seen);
      var expired, nbDown := AgeOne(es[i].key, es[i].val, elapsed, s, seen);
      isLsa', isNb' := isLsa || expired, isNb || nbDown;
      more := tree.view.repr - old(tree.view.repr);
    }

    /** preprocess_timeout: the expiry pass over the LSA table. */
    method AgeAll(es: seq<Entry<nat, Lsa>>, elapsed: int, ghost s: Node)
      returns (isLsa: bool, isNb: bool, ghost news: set<object>)
      requires UniqueKeys(es) && MapOf(es) == s.lsas
      requires TablesOk() && DirOk() && s.nid == nid && DirComplete(s) && State() == AgedTo(s, elapsed, {})
      modifies this`pend, this`dir, nbs, lsas, tree`view, tree.view.nodes, tree.view.arrays, tree.view.cells
      ensures TablesOk() && DirOk() && State() == AgeLsas(s, elapsed)
      ensures isLsa == (Expired(s, elapsed) != {}) && isNb == NbExpires(s, elapsed)
      ensures tree.Gains(news)
    {
      hide TablesOk, DirOk, State, AgedTo;
      ghost var seen: set<nat> := {};
      isLsa, isNb, news := false, false, {};
      ghost var v := tree.view;
      for i := 0 to |es|
        invariant tree.view.nodes == v.nodes && tree.view.arrays == v.arrays && fresh(tree.view.cells - v.cells)
        invariant fresh(news) && tree.scratch == old(tree.scratch)
        invariant forall x {:trigger x in tree.view.repr} :: x in tree.view.repr ==> x in v.repr || x in news
        invariant TablesOk() && DirOk() && State() == AgedTo(s, elapsed, seen) && SeenTo(es, i, seen)
        invariant isLsa == SomeExpired(s, elapsed, seen) && isNb == SomeNbExpired(s, elapsed, seen)
      {
        ghost var before, more := tree.view.cells, {};
        isLsa, isNb, more := AgeNext(es, i, elapsed, isLsa, isNb, s, seen);
        assert tree.view.cells - v.cells <= (tree.view.cells - before) + (before - v.cells);
        news := news + more;
        seen := seen + {es[i].key};
      }
      PassDone(es, s, elapsed, seen);
    }

    method PreprocessTimeout(elapsed: int) returns (isAdv: bool, isLsa: bool, isNb: bool, ghost news: set<object>)
      requires TablesOk() && DirOk() && DirComplete(State())
      modifies this`advLeft, this`pend, this`dir, nbs, lsas
      modifies tree`view, tree.view.nodes, tree.view.arrays, tree.view.cells
      ensures TablesOk() && DirOk() && State() == AgeLsas(old(State()), elapsed)
      ensures isAdv == (advLeft < 0) && isLsa == (Expired(old(State()), elapsed) != {})
      ensures isNb == NbExpires(old(State()), elapsed) && tree.Gains(news)
    {
      ghost var s := State();
      var es := BeginPass(elapsed);
      isAdv := advLeft < 0;
      isLsa, isNb, news := AgeAll(es, elapsed, s);
    }

    /** What the expiry pass begins with. */
    method BeginPass(elapsed: int) returns (es: seq<Entry<nat, Lsa>>)
      requires TablesOk() && DirOk()
      modifies this`advLeft
      ensures TablesOk() && DirOk() && tree.view == old(tree.view)
      ensures State() == AgedTo(old(State()), elapsed, {}) && advLeft == State().advLeft
      ensures UniqueKeys(es) && MapOf(es) == old(State()).lsas
    {
      AgedToNone(State(), elapsed);
      advLeft := advLeft - elapsed;
      es := WalkLsas();
    }

    method WalkLsas() returns (es: seq<Entry<nat, Lsa>>)
      requires TablesOk() && DirOk()
      ensures TablesOk() && DirOk() && tree.view == old(tree.view) && State() == old(State())
      ensures UniqueKeys(es) && MapOf(es) == lsas.Model()
    {
      es := lsas.Walk();
    }

    /** process_timeout. */
    method ProcessTimeout(isAdv: bool, isLsa: bool, isNb: bool)
      requires TablesOk() && |lsas.Model().Keys| <= GRAPHSIZE && NO_HOP !in lsas.Model()
      requires !isLsa ==> !isNb && RoutesFor(routes.table, State())
      modifies this`queue, this`made, this`advLeft, lsas, routes
      ensures TablesOk() && RoutesFor(routes.table, State())
      ensures var s := if isNb then Reload(old(State())) else old(State());
        State() == if isNb || isAdv then Advertise(s) else s
    {
      if !isLsa {
        RoutesAdvertise(routes.table, State());
      }
      if isNb {
        ReloadLocalLsa();
      }
      if isNb || isAdv {
        AdvertiseLocal();
      }
      if isLsa {
        UpdateRoutes();
      }
    }

    /** What follows from the flags, and retransmission. */
    method ActOnTimeout(isAdv: bool, isLsa: bool, isNb: bool, elapsed: int)
      requires TablesOk() && |lsas.Model().Keys| <= GRAPHSIZE && NO_HOP !in lsas.Model()
      requires !isLsa ==> !isNb && RoutesFor(routes.table, State())
      modifies this`pend, this`queue, this`made, this`advLeft, lsas, routes
      ensures TablesOk() && RoutesFor(routes.table, State())
      ensures var s := if isNb then Reload(old(State())) else old(State());
        State() == Retransmit(if isNb || isAdv then Advertise(s) else s, elapsed)
    {
      ProcessTimeout(isAdv, isLsa, isNb);
      ghost var s := State();
      ProcessRetranTimeout(elapsed);
      RoutesSame(routes.table, s, State());
    }

    /** Nothing of that concerns the tree. */
    method ActOnTimeoutOn(isAdv: bool, isLsa: bool, isNb: bool, elapsed: int)
      requires TablesOk() && DirOk() && |lsas.Model().Keys| <= GRAPHSIZE && NO_HOP !in lsas.Model()
      requires !isLsa ==> !isNb && RoutesFor(routes.table, State())
      modifies this`pend, this`queue, this`made, this`advLeft, lsas, routes
      ensures TablesOk() && DirOk() && RoutesFor(routes.table, State())
      ensures var s := if isNb then Reload(old(State())) else old(State());
        State() == Retransmit(if isNb || isAdv then Advertise(s) else s, elapsed)
      ensures tree.view == old(tree.view)
      ensures tree.scratch == old(tree.scratch)
    {
      hide TablesOk, RoutesFor;
      ActOnTimeout(isAdv, isLsa, isNb, elapsed);
    }

    method Age(elapsed: int) returns (isAdv: bool, isLsa: bool, isNb: bool, ghost news: set<object>)
      requires TablesOk() && DirOk() && DirComplete(State()) && RoutesFor(routes.table, State())
      modifies this`advLeft, this`pend, this`dir, nbs, lsas
      modifies tree`view, tree.view.nodes, tree.view.arrays, tree.view.cells
      ensures TablesOk() && DirOk() && State() == AgeLsas(old(State()), elapsed)
      ensures |lsas.Model().Keys| <= GRAPHSIZE && NO_HOP !in lsas.Model() && (!isLsa ==>
        !isNb && RoutesFor(routes.table, State()))
      ensures isAdv == (advLeft < 0) && isNb == NbExpires(old(State()), elapsed)
      ensures tree.Gains(news)
    {
      ghost var s := State();
      isAdv, isLsa, isNb, news := PreprocessTimeout(elapsed);
      AgedRoutes(routes.table, s, elapsed);
    }

    /** The whole of one tick on the tables. */
    method Tick(elapsed: int) returns (ghost news: set<object>)
      requires TablesOk() && DirOk() && DirComplete(State()) && RoutesFor(routes.table, State())
      modifies this`pend, this`queue, this`made, this`advLeft, this`dir, nbs, lsas, routes
      modifies tree`view, tree.view.nodes, tree.view.arrays, tree.view.cells
      ensures TablesOk() && DirOk() && RoutesFor(routes.table, State())
      ensures State() == TimeOut(old(State()), elapsed)
      ensures tree.Gains(news)
    {
      var isAdv, isLsa, isNb;
      isAdv, isLsa, isNb, news := Age(elapsed);
      ActOnTimeoutOn(isAdv, isLsa, isNb, elapsed);
    }

    /** handle_time_out: one tick. */
    method HandleTimeOut(elapsed: int) returns (ghost news: set<object>)
      requires Valid()
      modifies this`pend, this`queue, this`made, this`advLeft, this`dir, nbs, lsas, routes
      modifies tree`view, tree.view.nodes, tree.view.arrays, tree.view.cells
      ensures Valid() && State() == Step(old(State()), Event.Tick(elapsed))
      ensures tree.Gains(news)
    {
      TickLocal(State(), elapsed);
      news := Tick(elapsed);
    }

    // -------------------------------------------------------------- ADDFILE

    /** add_localfile; `writable` says whether the object list on disk could be appended to. A new name or path that
        is too long is copied past the end of its buffer; what happens then is not followed any further. */
    method AddLocalFile(name: string, path: string, writable: bool) returns (ret: int, overrun: bool)
      requires files.Valid()
      modifies files
      ensures files.Valid() && (overrun <==> name !in old(files.Model()) && !FitsEntry(name, path))
      ensures overrun <==> name !in old(files.Model()) && (|name| > 9 || |path| > 255)
      ensures !overrun ==> ret == if name in old(files.Model()) then ENTRY_EXISTS else if writable then 0 else -1
      ensures overrun || ret != 0 ==> files.Entries() == old(files.Entries()) && files.Model() == old(files.Model())
      ensures !overrun && ret == 0 ==> InsertedInto(old(files.Entries()), files.Entries(), Entry(name, path))
      ensures !overrun && ret == 0 ==> files.Model() == old(files.Model())[name := path]
    {
      ret, overrun := -1, false;
      var p := files.Find(name);
      if p.Some? {
        return ENTRY_EXISTS, false;
      }
      if !FitsEntry(name, path) {
        return -1, true;
      }
      if writable {
        files.Insert(name, path);
        ret := 0;
      }
    }

    /** The own LSA anew, its objects in the tree, and a flood. */
    method Publish()
      requires TablesOk() && DirOk() && "" !in KeysOf(files.Entries())
      modifies this`queue, this`made, this`advLeft, this`dir, lsas
      modifies tree`root, tree`view, tree.view.nodes, tree.view.arrays, tree.view.cells
      ensures TablesOk() && DirOk()
      ensures var s := Reload(old(State()));
        State() == Advertise(s.(dir := AddObjs(s.dir, KeysOf(files.Entries()), nid)))
      ensures tree.Extends()
    {
      ReloadOn();
      PublishOwn();
    }

    /** Nothing of that concerns routes and files. */
    method PublishOn()
      requires TablesOk() && DirOk() && "" !in KeysOf(files.Entries())
      modifies this`queue, this`made, this`advLeft, this`dir, lsas
      modifies tree`root, tree`view, tree.view.nodes, tree.view.arrays, tree.view.cells
      ensures TablesOk() && DirOk() && files.Model() == old(files.Model()) && routes.table == old(routes.table)
      ensures var s := Reload(old(State()));
        State() == Advertise(s.(dir := AddObjs(s.dir, KeysOf(files.Entries()), nid)))
      ensures tree.Extends()
    {
      hide DirOk;
      Publish();
    }

    method PublishOwn()
      requires TablesOk() && DirOk() && "" !in lsas.Model()[nid].body.objs
      modifies this`queue, this`made, this`advLeft, this`dir, lsas
      modifies tree`root, tree`view, tree.view.nodes, tree.view.arrays, tree.view.cells
      ensures TablesOk() && DirOk()
      ensures State() == Advertise(old(State()).(dir := AddObjs(old(dir), old(lsas.Model()[nid].body.objs), nid)))
      ensures tree.Extends()
    {
      LearnOwn();
      AdvertiseOn();
    }

    method ReloadOn()
      requires TablesOk() && DirOk()
      modifies lsas
      ensures TablesOk() && DirOk() && State() == Reload(old(State()))
      ensures tree.view == old(tree.view)
    {
      ReloadLocalLsa();
    }

    method AdvertiseOn()
      requires TablesOk() && DirOk()
      modifies this`queue, this`made, this`advLeft, lsas
      ensures TablesOk() && DirOk() && State() == Advertise(old(State()))
      ensures tree.view == old(tree.view)
    {
      AdvertiseLocal();
    }

    /** The ADDFILE branch of process_clnt_request. */
    method AddFileRequest(name: string, path: string, writable: bool)
      returns (ret: int, overrun: bool, ghost news: set<object>)
      requires Valid() && name != ""
      modifies this`queue, this`made, this`advLeft, this`dir, files, lsas
      modifies tree`root, tree`view, tree.view.nodes, tree.view.arrays, tree.view.cells
      ensures Valid() && tree.Gains(news)
      ensures overrun <==> name !in old(files.Model()) && !FitsEntry(name, path)
      ensures !overrun ==> ret == if name in old(files.Model()) then ENTRY_EXISTS else if writable then 0 else -1
      ensures overrun || ret != 0 ==> State() == old(State()) && files.Model() == old(files.Model())
      ensures !overrun && ret == 0 ==> files.Model() == old(files.Model())[name := path]
      ensures !overrun && ret != -1 ==> var ev := AddFile(name, KeysOf(files.Entries()));
        Enabled(old(State()), ev) && State() == Step(old(State()), ev)
    {
      ghost var s, es, v := State(), files.Entries(), tree.view;
      SameFiles(s, es, name);
      ret, overrun := AddLocalFileOn(name, path, writable);
      assert tree.view == v;
      news := {};
      if !overrun && ret == 0 {
        label L:
        PublishFile(name, path, s, es);
        news := tree.view.repr - v.repr;
        assert fresh@L(news);
      }
    }

    /** The new file is in the table; `s` and `es` are the state and the files before. */
    method PublishFile(name: string, path: string, ghost s: Node, ghost es: seq<Entry<string, string>>)
      requires TablesOk() && DirOk() && State() == s.(files := KeysOf(files.Entries()))
      requires LocalOk(s) && RoutesFor(routes.table, s)
      requires s.files == KeysOf(es) && name !in s.files && name != ""
      requires InsertedInto(es, files.Entries(), Entry(name, path))
      modifies this`queue, this`made, this`advLeft, this`dir, lsas
      modifies tree`root, tree`view, tree.view.nodes, tree.view.arrays, tree.view.cells
      ensures Valid() && files.Model() == old(files.Model())
      ensures var ev := AddFile(name, KeysOf(files.Entries()));
        Enabled(s, ev) && State() == Step(s, ev)
      ensures tree.Extends()
    {
      FileAdded(s, es, files.Entries(), name, path, tree.view.forest, routes.table);
      PublishOn();
    }

    method AddLocalFileOn(name: string, path: string, writable: bool) returns (ret: int, overrun: bool)
      requires TablesOk() && DirOk()
      modifies files
      ensures tree.view == old(tree.view) && (overrun <==> name !in old(files.Model()) && !FitsEntry(name, path))
      ensures !overrun ==> ret == if name in old(files.Model()) then ENTRY_EXISTS else if writable then 0 else -1
      ensures TablesOk() && DirOk() && State() == old(State()).(files := KeysOf(files.Entries()))
      ensures overrun || ret != 0 ==> files.Entries() == old(files.Entries()) && files.Model() == old(files.Model())
      ensures !overrun && ret == 0 ==> InsertedInto(old(files.Entries()), files.Entries(), Entry(name, path))
      ensures !overrun && ret == 0 ==> files.Model() == old(files.Model())[name := path]
      ensures tree.scratch == old(tree.scratch)
    {
      ret, overrun := AddLocalFile(name, path, writable);
    }
  }
}
