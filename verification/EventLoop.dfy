/** The event loop: one daemon from its start through any list of inputs (src/routed.c:119-213). */
module EventLoops {
  import opened HashTables
  import opened Types
  import opened Dijkstra
  import opened Protocol
  import opened Timing
  import opened Forests
  import opened Queries
  import opened Daemons
  import opened Forwarding
  import opened Convergence

  /** What the loop has to deal with. `writable` says whether the object list on disk could be appended to. */
  datatype Input =
    | Datagram(packet: Packet, from: Addr)
    | Writable
    | Timeout(elapsed: int)
    | Publish(name: string, path: string, writable: bool)
    | Lookup(name: string)

  datatype Output = Nothing | Stored(ret: int) | Answer(reply: Reply) | Overrun

  /** What a daemon holds: its protocol state, and the paths of its files. */
  datatype Held = Held(node: Node, paths: map<string, string>)

  /** After that the daemon is not followed any further. */
  predicate Fatal(out: Output)
  {
    out.Overrun? || (out.Answer? && out.reply.Segfault?)
  }

  // ---------------------------------------------------------------- what an input does to the state

  /** The node takes the step of the event, which does not concern the files. */
  ghost predicate Takes(h: Held, ev: Event, h': Held)
  {
    Enabled(h.node, ev) && h' == Held(Step(h.node, ev), h.paths)
  }

  /** A lookup answers from the paths, and from an object tree that represents the directory. */
  ghost predicate Looks(h: Held, name: string, reply: Reply)
  {
    exists tree: Forest :: Represents(tree, h.node.dir) && Replies(h.node, tree, h.paths, name, reply)
  }

  /** A new file is added somewhere in the list of files. */
  ghost predicate Added(h: Held, name: string, path: string, h': Held)
  {
    && h'.paths == h.paths[name := path]
    && exists files: seq<string> ::
      Enabled(h.node, AddFile(name, files)) && h'.node == Step(h.node, AddFile(name, files))
  }

  ghost predicate Publishes(h: Held, name: string, path: string, writable: bool, out: Output, h': Held)
  {
    if name in h.paths then out == Stored(ENTRY_EXISTS) && h' == h
    else if !FitsEntry(name, path) then out == Overrun && h' == h
    else if !writable then out == Stored(-1) && h' == h
    else out == Stored(0) && Added(h, name, path, h')
  }

  /** One round of the loop takes the protocol step that belongs to its input, if any. */
  ghost predicate Serves(h: Held, inp: Input, out: Output, h': Held)
  {
    match inp
    case Datagram(packet, from) => out == Nothing && Takes(h, Deliver(packet, from), h')
    case Writable => out == Nothing && Takes(h, SendAll, h')
    case Timeout(elapsed) => out == Nothing && Takes(h, Event.Tick(elapsed), h')
    case Publish(name, path, writable) => Publishes(h, name, path, writable, out, h')
    case Lookup(name) => out.Answer? && h' == h && Looks(h, name, out.reply)
  }

  /** What the loop can be given: object names are not empty, and origins are real node ids. */
  predicate Proper(inp: Input)
  {
    match inp
    case Datagram(packet, _) => packet.Ad? ==> "" !in packet.body.objs && packet.origin != NO_HOP
    case Publish(name, _, _) => name != ""
    case _ => true
  }

  /** The node that an input may make known. */
  function Origin(inp: Input): set<nat>
  {
    if inp.Datagram? && inp.packet.Ad? then {inp.packet.origin} else {}
  }

  lemma StepKeys(h: Held, inp: Input, out: Output, h': Held)
    requires Serves(h, inp, out, h')
    ensures h'.node.lsas.Keys <= h.node.lsas.Keys + Origin(inp)
  {
    if inp.Timeout? {
      TickKeys(h.node, inp.elapsed);
    }
  }

  lemma TickKeys(s: Node, elapsed: int)
    requires Enabled(s, Event.Tick(elapsed))
    ensures Step(s, Event.Tick(elapsed)).lsas.Keys == s.lsas.Keys
  {
  }

  // ---------------------------------------------------------------- one round

  /** All objects that belong to a daemon. */
  ghost function Repr(d: Daemon): set<object>
    reads d.tree`view, d.tree`scratch
  {
    {d, d.nbs, d.lsas, d.files, d.routes, d.tree} + d.tree.view.repr + d.tree.scratch
  }

  /** Nothing but `news` joins them, and that is new. */
  twostate predicate Gains(d: Daemon, new news: set<object>)
    reads d.tree`view, d.tree`scratch
  {
    && fresh(news)
    && (forall x {:trigger x in d.tree.view.repr} :: x in d.tree.view.repr ==> x in old(d.tree.view.repr) || x in news)
    && (forall x {:trigger x in d.tree.scratch} :: x in d.tree.scratch ==> x in old(d.tree.scratch) || x in news)
  }

  ghost function HeldBy(d: Daemon): Held
    reads d, d.nbs, d.lsas, d.files
  {
    Held(d.State(), d.files.Model())
  }

  method Receive(d: Daemon, packet: Packet, from: Addr) returns (ghost news: set<object>)
    requires d.Valid()
    requires packet.Ad? ==>
      "" !in packet.body.objs && packet.origin != NO_HOP && |d.lsas.Model().Keys + {packet.origin}| <= GRAPHSIZE
    modifies d`pend, d`queue, d`made, d`advLeft, d`dir, d.nbs, d.lsas, d.routes
    modifies d.tree`root, d.tree`view, d.tree.view.nodes, d.tree.view.arrays, d.tree.view.cells
    ensures d.Valid() && Takes(old(HeldBy(d)), Deliver(packet, from), HeldBy(d)) && d.tree.Gains(news)
  {
    assert Enabled(d.State(), Deliver(packet, from));
    hide Daemon.Valid, Daemon.State, Step, Enabled;
    news := d.ProcessRtInf(packet, from);
  }

  lemma AdFits(keys: set<nat>, packet: Packet, from: Addr)
    requires Proper(Datagram(packet, from)) && |keys + Origin(Datagram(packet, from))| <= GRAPHSIZE
    ensures packet.Ad? ==>
      "" !in packet.body.objs && packet.origin != NO_HOP && |keys + {packet.origin}| <= GRAPHSIZE
  {
  }

  method OnDatagram(d: Daemon, packet: Packet, from: Addr) returns (ghost news: set<object>)
    requires d.Valid() && Proper(Datagram(packet, from))
    requires |d.lsas.Model().Keys + Origin(Datagram(packet, from))| <= GRAPHSIZE
    modifies Repr(d)
    ensures d.Valid() && Serves(old(HeldBy(d)), Datagram(packet, from), Nothing, HeldBy(d)) && Gains(d, news)
  {
    AdFits(d.lsas.Model().Keys, packet, from);
    news := Receive(d, packet, from);
  }

  method OnWrite(d: Daemon)
    requires d.Valid()
    modifies Repr(d)
    ensures d.Valid() && Serves(old(HeldBy(d)), Writable, Nothing, HeldBy(d))
    ensures d.tree.view == old(d.tree.view) && d.tree.scratch == old(d.tree.scratch)
  {
    d.OnWritable();
  }

  method OnTimeout(d: Daemon, elapsed: int) returns (ghost news: set<object>)
    requires d.Valid()
    modifies Repr(d)
    ensures d.Valid() && Serves(old(HeldBy(d)), Timeout(elapsed), Nothing, HeldBy(d)) && Gains(d, news)
  {
    news := d.HandleTimeOut(elapsed);
  }

  lemma PublishesBy(h: Held, name: string, path: string, writable: bool, ret: int, overrun: bool, files: seq<string>,
          h': Held)
    requires overrun <==> name !in h.paths && !FitsEntry(name, path)
    requires !overrun ==> ret == if name in h.paths then ENTRY_EXISTS else if writable then 0 else -1
    requires overrun || ret != 0 ==> h' == h
    requires !overrun && ret == 0 ==> h'.paths == h.paths[name := path]
    requires !overrun && ret != -1 ==>
      Enabled(h.node, AddFile(name, files)) && h'.node == Step(h.node, AddFile(name, files))
    ensures Publishes(h, name, path, writable, if overrun then Overrun else Stored(ret), h')
  {
  }

  method AddFileTo(d: Daemon, name: string, path: string, writable: bool) returns (out: Output, ghost news: set<object>)
    requires d.Valid() && name != ""
    modifies d`queue, d`made, d`advLeft, d`dir, d.files, d.lsas
    modifies d.tree`root, d.tree`view, d.tree.view.nodes, d.tree.view.arrays, d.tree.view.cells
    ensures d.Valid() && Publishes(old(HeldBy(d)), name, path, writable, out, HeldBy(d)) && Gains(d, news)
  {
    ghost var h := HeldBy(d);
    var ret, overrun;
    ret, overrun, news := d.AddFileRequest(name, path, writable);
    PublishesBy(h, name, path, writable, ret, overrun, KeysOf(d.files.Entries()), HeldBy(d));
    out := if overrun then Overrun else Stored(ret);
  }

  method OnPublish(d: Daemon, name: string, path: string, writable: bool) returns (out: Output, ghost news: set<object>)
    requires d.Valid() && name != ""
    modifies Repr(d)
    ensures d.Valid() && Serves(old(HeldBy(d)), Publish(name, path, writable), out, HeldBy(d))
    ensures Gains(d, news)
  {
    out, news := AddFileTo(d, name, path, writable);
  }

  /** The object tree and the file paths of a daemon fit its state. */
  lemma DaemonStore(d: Daemon)
    requires d.Valid()
    ensures Convergence.Store.Store(d.tree.view.forest, d.files.Model()).For(d.State())
  {
    forall x: string
      ensures x in d.State().files <==> x in d.files.Model()
    {
      KeysOfHas(d.files.Entries(), x);
    }
  }

  lemma LooksBy(h: Held, tree: Forest, name: string, reply: Reply)
    requires Convergence.Store.Store(tree, h.paths).For(h.node) && Replies(h.node, tree, h.paths, name, reply)
    ensures Looks(h, name, reply)
  {
  }

  method AnswerFrom(d: Daemon, name: string) returns (reply: Reply)
    requires d.Valid()
    modifies d.tree`alPre, d.tree`scratch, (if d.tree.alPre == null then {} else {d.tree.alPre}),
      (if d.tree.alPre == null then {} else {d.tree.alPre.arr})
    ensures d.Valid() && Serves(old(HeldBy(d)), Lookup(name), Answer(reply), HeldBy(d))
    ensures d.tree.view == old(d.tree.view) && fresh(d.tree.scratch - old(d.tree.scratch))
  {
    hide Daemon.Valid, Replies, Represents;
    reply := LookupFile(d, name);
    DaemonStore(d);
    LooksBy(HeldBy(d), d.tree.view.forest, name, reply);
  }

  method OnLookup(d: Daemon, name: string) returns (reply: Reply, ghost news: set<object>)
    requires d.Valid()
    modifies Repr(d)
    ensures d.Valid() && Serves(old(HeldBy(d)), Lookup(name), Answer(reply), HeldBy(d)) && Gains(d, news)
  {
    reply := AnswerFrom(d, name);
    news := d.tree.scratch - old(d.tree.scratch);
  }

  /** One round of the loop. */
  method Handle(d: Daemon, inp: Input) returns (out: Output, ghost news: set<object>)
    requires d.Valid() && Proper(inp) && |d.lsas.Model().Keys + Origin(inp)| <= GRAPHSIZE
    modifies Repr(d)
    ensures d.Valid() && Serves(old(HeldBy(d)), inp, out, HeldBy(d))
    ensures Gains(d, news)
  {
    out, news := Nothing, {};
    match inp
    case Datagram(packet, from) => news := OnDatagram(d, packet, from);
    case Writable => OnWrite(d);
    case Timeout(elapsed) => news := OnTimeout(d, elapsed);
    case Publish(name, path, writable) => out, news := OnPublish(d, name, path, writable);
    case Lookup(name) =>
      var reply;
      reply, news := OnLookup(d, name);
      out := Answer(reply);
  }

  // ---------------------------------------------------------------- the loop

  ghost predicate ServedAt(st: seq<Held>, inputs: seq<Input>, outs: seq<Output>, i: nat)
    requires i < |outs| <= |inputs| && |st| == |outs| + 1
  {
    Serves(st[i], inputs[i], outs[i], st[i + 1]) && (i < |outs| - 1 ==> !Fatal(outs[i]))
  }

  /** What the daemon holds while it gives the outputs. */
  ghost predicate States(st: seq<Held>, inputs: seq<Input>, outs: seq<Output>)
  {
    && |st| == |outs| + 1 && |outs| <= |inputs|
    && forall i {:trigger ServedAt(st, inputs, outs, i)} :: 0 <= i < |outs| ==> ServedAt(st, inputs, outs, i)
  }

  /** The first inputs lead from h to h' and have these outputs, none of them fatal but perhaps the last. */
  ghost predicate Served(h: Held, inputs: seq<Input>, outs: seq<Output>, h': Held)
  {
    exists st {:trigger States(st, inputs, outs)} :: States(st, inputs, outs) && st[0] == h && st[|outs|] == h'
  }

  lemma NoneServed(h: Held, inputs: seq<Input>)
    ensures Served(h, inputs, [], h)
  {
    assert States([h], inputs, []);
  }

  lemma OneMoreServed(h: Held, inputs: seq<Input>, outs: seq<Output>, h': Held, out: Output, h'': Held)
    requires Served(h, inputs, outs, h') && |outs| < |inputs| && Serves(h', inputs[|outs|], out, h'')
    requires outs != [] ==> !Fatal(outs[|outs| - 1])
    ensures Served(h, inputs, outs + [out], h'')
  {
    var st :| States(st, inputs, outs) && st[0] == h && st[|outs|] == h';
    forall k | 0 <= k < |outs| + 1
      ensures ServedAt(st + [h''], inputs, outs + [out], k)
    {
      if k < |outs| {
        assert ServedAt(st, inputs, outs, k);
      }
    }
    assert States(st + [h''], inputs, outs + [out]);
  }

  ghost function Origins(inputs: seq<Input>): set<nat>
  {
    if inputs == [] then {} else Origin(inputs[0]) + Origins(inputs[1..])
  }

  lemma {:induction false} OriginIn(inputs: seq<Input>, i: nat)
    requires i < |inputs|
    ensures Origin(inputs[i]) <= Origins(inputs)
  {
    if i > 0 {
      OriginIn(inputs[1..], i - 1);
    }
  }

  lemma Fewer(a: set<nat>, b: set<nat>)
    requires a <= b
    ensures |a| <= |b|
  {
    assert b == a + (b - a);
  }

  /** One round more; `h` is what the daemon held before all rounds, and `known` bounds the nodes that can be known. */
  method Round(d: Daemon, inputs: seq<Input>, outs: seq<Output>, ghost h: Held, ghost known: set<nat>)
    returns (out: Output, ghost more: set<object>)
    requires d.Valid() && Served(h, inputs, outs, HeldBy(d)) && |outs| < |inputs|
    requires outs != [] ==> !Fatal(outs[|outs| - 1])
    requires Proper(inputs[|outs|]) && d.lsas.Model().Keys + Origins(inputs) <= known && |known| <= GRAPHSIZE
    modifies Repr(d)
    ensures d.Valid() && Served(h, inputs, outs + [out], HeldBy(d)) && d.lsas.Model().Keys <= known
    ensures Gains(d, more)
  {
    OriginIn(inputs, |outs|);
    Fewer(d.lsas.Model().Keys + Origin(inputs[|outs|]), known);
    ghost var h' := HeldBy(d);
    out, more := Handle(d, inputs[|outs|]);
    StepKeys(h', inputs[|outs|], out, HeldBy(d));
    OneMoreServed(h, inputs, outs, h', out, HeldBy(d));
  }

  /** All inputs are handled, or all up to the first one behind which there is a null pointer or an overrun. */
  ghost predicate Stopped(inputs: seq<Input>, outs: seq<Output>)
  {
    && (forall i :: 0 <= i < |outs| - 1 ==> outs[i] != Overrun && outs[i] != Answer(Segfault))
    && |outs| <= |inputs|
    && (|outs| < |inputs| ==>
      outs != [] && (outs[|outs| - 1] == Overrun || outs[|outs| - 1] == Answer(Segfault)))
  }

  /** The loop of main: inputs are handled one after the other. */
  method Run(d: Daemon, inputs: seq<Input>) returns (outs: seq<Output>)
    requires d.Valid() && (forall i :: 0 <= i < |inputs| ==> Proper(inputs[i]))
    requires |d.lsas.Model().Keys + Origins(inputs)| <= GRAPHSIZE
    modifies Repr(d)
    ensures d.Valid() && Served(old(HeldBy(d)), inputs, outs, HeldBy(d))
    ensures Stopped(inputs, outs)
  {
    hide Daemon.Valid, HeldBy, Served, Origin, Origins;
    outs := [];
    NoneServed(HeldBy(d), inputs);
    ghost var h, known, news: set<object> := HeldBy(d), d.lsas.Model().Keys + Origins(inputs), {};
    while |outs| < |inputs|
      invariant |outs| <= |inputs| && d.Valid() && Served(h, inputs, outs, HeldBy(d)) && d.lsas.Model().Keys <= known
      invariant forall i :: 0 <= i < |outs| ==> !Fatal(outs[i])
      invariant Gains(d, news)
    {
      label L:
      var out;
      ghost var more;
      out, more := Round(d, inputs, outs, h, known);
      assert fresh@L(more);
      outs, news := outs + [out], news + more;
      if Fatal(out) {
        return;
      }
    }
  }

  /** What a daemon holds after the start. */
  ghost function Booted(nid: nat, timers: Timers, nbs: seq<Entry<nat, Neighbour>>, files: seq<Entry<string, string>>)
    : Held
  {
    Held(Boot(nid, timers, nbs, KeysOf(files)), MapOf(files))
  }

  /** From main's tables on: the daemon starts, and serves the inputs. */
  method Serve(nid: nat, timers: Timers, nbs: HashTable<nat, Neighbour>, files: HashTable<string, string>,
          inputs: seq<Input>) returns (d: Daemon, outs: seq<Output>)
    requires nbs.Valid() && files.Valid() && nid != NO_HOP && "" !in files.Model() && nid in nbs.Model()
    requires forall i :: 0 <= i < |nbs.Entries()| ==> nbs.Entries()[i].val.valid
    requires (forall i :: 0 <= i < |inputs| ==> Proper(inputs[i])) && |{nid} + Origins(inputs)| <= GRAPHSIZE
    modifies nbs, files
    ensures d.Valid()
    ensures Served(Booted(nid, timers, old(nbs.Entries()), old(files.Entries())), inputs, outs, HeldBy(d))
    ensures Stopped(inputs, outs)
  {
    hide Daemon.Valid, HeldBy, Booted, Served, Repr;
    d := Begin(nid, timers, nbs, files);
    outs := Run(d, inputs);
  }

  /** A daemon that is started: it is new but for the two tables. */
  method Begin(nid: nat, timers: Timers, nbs: HashTable<nat, Neighbour>, files: HashTable<string, string>)
    returns (d: Daemon)
    requires nbs.Valid() && files.Valid() && nid != NO_HOP && "" !in files.Model() && nid in nbs.Model()
    requires forall i :: 0 <= i < |nbs.Entries()| ==> nbs.Entries()[i].val.valid
    ensures d.Valid() && d.lsas.Model().Keys == {nid}
    ensures HeldBy(d) == Booted(nid, timers, nbs.Entries(), files.Entries())
    ensures forall x {:trigger x in Repr(d)} :: x in Repr(d) ==> x == nbs || x == files || fresh(x)
  {
    hide Daemon.Valid, HeldBy;
    d := BeginParts(nid, timers, nbs, files);
    assert d.tree.view.repr + d.tree.scratch == d.tree.view.repr;
  }

  method BeginParts(nid: nat, timers: Timers, nbs: HashTable<nat, Neighbour>, files: HashTable<string, string>)
    returns (d: Daemon)
    requires nbs.Valid() && files.Valid() && nid != NO_HOP && "" !in files.Model() && nid in nbs.Model()
    requires forall i :: 0 <= i < |nbs.Entries()| ==> nbs.Entries()[i].val.valid
    ensures d.Valid() && d.nbs == nbs && d.files == files && d.lsas.Model().Keys == {nid} && d.tree.scratch == {}
    ensures fresh(d) && fresh(d.lsas) && fresh(d.routes) && fresh(d.tree) && fresh(d.tree.view.repr)
    ensures HeldBy(d) == Booted(nid, timers, nbs.Entries(), files.Entries())
  {
    hide Daemon.Valid, Daemon.TablesOk, Daemon.DirOk;
    d := new Daemon(nid, timers, nbs, files);
    label L:
    ghost var news := d.Start();
    assert fresh@L(news);
  }

  // ---------------------------------------------------------------- the events behind the inputs

  /** What an input comes to: no event, or one. */
  lemma EventBehind(h: Held, inp: Input, out: Output, h': Held, t: int) returns (evs: seq<Event>)
    requires Serves(h, inp, out, h') && (inp.Timeout? ==> inp.elapsed == t)
    ensures if evs == [] then h'.node == h.node else
      && |evs| == 1 && Enabled(h.node, evs[0]) && h'.node == Step(h.node, evs[0])
      && (evs[0].Tick? ==> evs[0].elapsed == t)
  {
    match inp
    case Datagram(packet, from) => evs := [Deliver(packet, from)];
    case Writable => evs := [SendAll];
    case Timeout(elapsed) => evs := [Event.Tick(elapsed)];
    case Publish(name, path, _) =>
      evs := [];
      if out == Stored(0) {
        assert Added(h, name, path, h');
        var files: seq<string> :|
          Enabled(h.node, AddFile(name, files)) && h'.node == Step(h.node, AddFile(name, files));
        evs := [AddFile(name, files)];
      }
    case Lookup(_) => evs := [];
  }

  lemma TraceLonger(st: seq<Node>, evs: seq<Event>, t: int, ev: Event)
    requires Trace(st, evs, t) && Enabled(st[|evs|], ev) && (ev.Tick? ==> ev.elapsed == t)
    ensures Trace(st + [Step(st[|evs|], ev)], evs + [ev], t)
  {
    forall i | 0 <= i < |evs| + 1
      ensures TraceAt(st + [Step(st[|evs|], ev)], evs + [ev], t, i)
    {
      if i < |evs| {
        assert TraceAt(st, evs, t, i);
      }
    }
  }

  /** With ticks t apart the loop takes its node through a trace of events, about which module Timing speaks. */
  lemma {:induction false} StatesTrace(hs: seq<Held>, inputs: seq<Input>, outs: seq<Output>, t: int, k: nat)
    returns (st: seq<Node>, evs: seq<Event>)
    requires States(hs, inputs, outs) && t > 0 && k <= |outs|
    requires forall i :: 0 <= i < |inputs| && inputs[i].Timeout? ==> inputs[i].elapsed == t
    ensures Trace(st, evs, t) && st[0] == hs[0].node && st[|evs|] == hs[k].node
  {
    if k == 0 {
      st, evs := [hs[0].node], [];
    } else {
      st, evs := StatesTrace(hs, inputs, outs, t, k - 1);
      assert ServedAt(hs, inputs, outs, k - 1);
      var more := EventBehind(hs[k - 1], inputs[k - 1], outs[k - 1], hs[k], t);
      if more != [] {
        TraceLonger(st, evs, t, more[0]);
        st, evs := st + [Step(st[|evs|], more[0])], evs + [more[0]];
      }
    }
  }

  lemma ServedTrace(h: Held, inputs: seq<Input>, outs: seq<Output>, h': Held, t: int)
    returns (st: seq<Node>, evs: seq<Event>)
    requires Served(h, inputs, outs, h') && t > 0
    requires forall i :: 0 <= i < |inputs| && inputs[i].Timeout? ==> inputs[i].elapsed == t
    ensures Trace(st, evs, t) && st[0] == h.node && st[|evs|] == h'.node
  {
    var hs :| States(hs, inputs, outs) && hs[0] == h && hs[|outs|] == h';
    st, evs := StatesTrace(hs, inputs, outs, t, |outs|);
  }

  // ---------------------------------------------------------------- a file that was added is found

  /** A path, once there, stays. */
  lemma {:induction false} PathsStay(st: seq<Held>, inputs: seq<Input>, outs: seq<Output>, i: nat, j: nat, name: string)
    requires States(st, inputs, outs) && i <= j <= |outs| && name in st[i].paths
    ensures name in st[j].paths && st[j].paths[name] == st[i].paths[name]
    decreases j
  {
    if i < j {
      PathsStay(st, inputs, outs, i, j - 1, name);
      assert ServedAt(st, inputs, outs, j - 1);
    }
  }

  /** If ADDFILE has taken a file, every later answer that is a local file of that name is its path, whatever happens in
      between, and adding another file of that name is refused. */
  lemma PublishedFound(st: seq<Held>, inputs: seq<Input>, outs: seq<Output>, i: nat, j: nat, name: string, path: string)
    requires States(st, inputs, outs) && i < j < |outs|
    requires inputs[i].Publish? && inputs[i].name == name && inputs[i].path == path && outs[i] == Stored(0)
    ensures inputs[j] == Lookup(name) ==>
      outs[j].Answer? && (outs[j].reply.Here? ==> outs[j].reply == Here(path))
    ensures inputs[j].Publish? && inputs[j].name == name ==> outs[j] == Stored(ENTRY_EXISTS) && st[j + 1] == st[j]
  {
    assert ServedAt(st, inputs, outs, i);
    PathsStay(st, inputs, outs, i + 1, j, name);
    assert ServedAt(st, inputs, outs, j);
    if inputs[j] == Lookup(name) {
      var tree: Forest :|
        Represents(tree, st[j].node.dir) && Replies(st[j].node, tree, st[j].paths, name, outs[j].reply);
    }
  }
}
