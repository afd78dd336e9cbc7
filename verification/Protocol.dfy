/** The flooding protocol of one node as functions on its state
    (src/client_info.c:291-553, 590-715, src/lsa.c:27-237, src/sel_timeout.c:42-174). */
module Protocol {
  import opened HashTables
  import opened Types

  /** The protocol state of one daemon. `made` records every advertisement ever queued for a neighbour. */
  datatype Node = Node(
    nid: nat, timers: Timers,
    nbs: seq<Entry<nat, Neighbour>>,
    lsas: map<nat, Lsa>,
    files: seq<string>,
    dir: map<string, set<nat>>,
    queue: seq<Pending>,
    pend: seq<seq<Pending>>,
    advLeft: int,
    made: seq<Pending>)

  datatype Event =
    | Deliver(packet: Packet, from: Addr)
    | SendAll
    | Tick(elapsed: int)
    | AddFile(name: string, filesAfter: seq<string>)

  // ---------------------------------------------------------------- own LSA

  function LiveLinks(nbs: seq<Entry<nat, Neighbour>>, self: nat): seq<nat>
  {
    if nbs == [] then []
    else
      var nb := nbs[|nbs| - 1];
      LiveLinks(nbs[..|nbs| - 1], self) + if nb.key != self && nb.val.valid then [nb.key] else []
  }

  function LocalBody(s: Node): Body
  {
    Body(LiveLinks(s.nbs, s.nid), s.files)
  }

  /** Rebuild the own LSA from neighbours and files; its sequence number stays. */
  function Reload(s: Node): Node
    requires s.nid in s.lsas
  {
    s.(lsas := s.lsas[s.nid := Lsa(true, s.timers.lsa, LSA_MAX_TTL, s.lsas[s.nid].seqNum, LocalBody(s))])
  }

  // ---------------------------------------------------------------- flooding

  function AdFor(origin: nat, lsa: Lsa, dst: Addr, retran: int): Pending
  {
    Pending(dst, retran, Ad(lsa.ttl, origin, lsa.seqNum, lsa.body))
  }

  /** A neighbour that is up, is neither this node nor the origin, and is not whom the packet came from. */
  predicate Target(nb: Entry<nat, Neighbour>, self: nat, origin: nat, except: Option<Addr>)
  {
    nb.val.valid && nb.key != self && nb.key != origin && except != Some(nb.val.Address())
  }

  /** The advertisements of one flood; each is put in front of the previous one. */
  function FloodAds(nbs: seq<Entry<nat, Neighbour>>, self: nat, origin: nat, except: Option<Addr>, lsa: Lsa,
          retran: int): seq<Pending>
  {
    if nbs == [] then []
    else
      var nb := nbs[|nbs| - 1];
      (if Target(nb, self, origin, except) then [AdFor(origin, lsa, nb.val.Address(), retran)] else [])
      + FloodAds(nbs[..|nbs| - 1], self, origin, except, lsa, retran)
  }

  function Flood(s: Node, origin: nat, except: Option<Addr>): Node
    requires origin in s.lsas
  {
    var lsa := s.lsas[origin];
    var ads := FloodAds(s.nbs, s.nid, origin, except, lsa, s.timers.retran);
    s.(queue := ads + s.queue, made := ads + s.made,
       lsas := if origin == s.nid then s.lsas[origin := lsa.(seqNum := lsa.seqNum + 1)] else s.lsas)
  }

  /** Flood the own LSA and restart the advertisement timer. */
  function Advertise(s: Node): Node
    requires s.nid in s.lsas
  {
    Flood(s, s.nid, None).(advLeft := s.timers.adv)
  }

  // ---------------------------------------------------------------- directory

  function AddObj(dir: map<string, set<nat>>, o: string, n: nat): map<string, set<nat>>
  {
    dir[o := (if o in dir then dir[o] else {}) + {n}]
  }

  function AddObjs(dir: map<string, set<nat>>, objs: seq<string>, n: nat): map<string, set<nat>>
  {
    if objs == [] then dir else AddObj(AddObjs(dir, objs[..|objs| - 1], n), objs[|objs| - 1], n)
  }

  /** The directory without the objects of the nodes in `gone`. */
  function WithoutObjs(dir: map<string, set<nat>>, gone: set<nat>, lsas: map<nat, Lsa>): map<string, set<nat>>
  {
    map o | o in dir :: set n | n in dir[o] && !(n in gone && n in lsas && o in lsas[n].body.objs)
  }

  // ---------------------------------------------------------------- receiving

  function Enqueue(s: Node, dst: Addr, packet: Packet): Node
  {
    s.(queue := [Pending(dst, 0, packet)] + s.queue)
  }

  function SetValid(nbs: seq<Entry<nat, Neighbour>>, ids: set<nat>, valid: bool): (r: seq<Entry<nat, Neighbour>>)
    ensures |r| == |nbs|
  {
    seq(|nbs|, i requires 0 <= i < |nbs| =>
      if nbs[i].key in ids then Entry(nbs[i].key, nbs[i].val.(valid := valid)) else nbs[i])
  }

  predicate IsNb(nbs: seq<Entry<nat, Neighbour>>, id: nat)
  {
    exists i :: 0 <= i < |nbs| && nbs[i].key == id
  }

  predicate IsDown(nbs: seq<Entry<nat, Neighbour>>, id: nat)
  {
    exists i :: 0 <= i < |nbs| && nbs[i].key == id && !nbs[i].val.valid
  }

  /** The ttl field is an unsigned byte. */
  function LessOne(ttl: int): int
  {
    if ttl == 0 then 255 else ttl - 1
  }

  predicate Newer(s: Node, ad: Packet)
    requires ad.Ad?
  {
    ad.origin !in s.lsas || s.lsas[ad.origin].seqNum < ad.seqNum
  }

  /** The LSA that replaces the stored one, and its objects in the directory. */
  function Learn(s: Node, ad: Packet): Node
    requires ad.Ad?
  {
    var left := if IsNb(s.nbs, ad.origin) then s.timers.nb else s.timers.lsa;
    s.(lsas := s.lsas[ad.origin := Lsa(true, left, LessOne(ad.ttl), ad.seqNum, ad.body)],
       dir := AddObjs(s.dir, ad.body.objs, ad.origin))
  }

  /** A neighbour that was down is up again. */
  function Revive(s: Node, id: nat): Node
    requires s.nid in s.lsas
  {
    if IsDown(s.nbs, id) then Reload(s.(nbs := SetValid(s.nbs, {id}, true))) else s
  }

  function Accept(s: Node, ad: Packet, from: Addr): Node
    requires s.nid in s.lsas && ad.Ad? && ad.origin != s.nid
  {
    var s1 := Revive(Learn(s, ad), ad.origin);
    if ad.ttl - 1 > 0 then Flood(s1, ad.origin, Some(from)) else s1
  }

  /** A restarted origin counts from 0 again while a higher number is stored for it. */
  predicate Restarted(s: Node, ad: Packet)
    requires ad.Ad?
  {
    ad.seqNum == 0 && ad.origin in s.lsas && 0 < s.lsas[ad.origin].seqNum
  }

  function RecvAd(s: Node, ad: Packet, from: Addr): Node
    requires s.nid in s.lsas && ad.Ad?
  {
    if ad.origin == s.nid then s
    else if Restarted(s, ad) then Enqueue(s, from, Seq(ad.origin, s.lsas[ad.origin].seqNum))
    else if Newer(s, ad) then Enqueue(Accept(s, ad, from), from, Ack(ad.origin, ad.seqNum))
    else Enqueue(s, from, Ack(ad.origin, ad.seqNum))
  }

  /** First position at or after `i` of an entry from `origin`; the length if there is none. */
  function FirstFrom(chain: seq<Pending>, i: nat, origin: nat): (r: nat)
    requires i <= |chain|
    ensures i <= r <= |chain| && (r < |chain| ==> chain[r].packet.origin == origin)
    ensures forall j :: i <= j < r ==> chain[j].packet.origin != origin
    decreases |chain| - i
  {
    if i == |chain| || chain[i].packet.origin == origin then i else FirstFrom(chain, i + 1, origin)
  }

  /** First position at or after `i` with this sequence number and address, whoever the origin is. */
  function FirstExact(chain: seq<Pending>, i: nat, seqNum: nat, from: Addr): (r: nat)
    requires i <= |chain|
    ensures i <= r <= |chain| && (r < |chain| ==> chain[r].packet.seqNum == seqNum && chain[r].dst == from)
    ensures forall j :: i <= j < r ==> !(chain[j].packet.seqNum == seqNum && chain[j].dst == from)
    decreases |chain| - i
  {
    if i == |chain| || (chain[i].packet.seqNum == seqNum && chain[i].dst == from) then i
    else FirstExact(chain, i + 1, seqNum, from)
  }

  function Without(chain: seq<Pending>, i: nat): seq<Pending>
    requires i <= |chain|
  {
    if i < |chain| then chain[..i] + chain[i + 1..] else chain
  }

  /** The scan of remove_pd_ack in the bucket of `origin`. */
  function Acked(chain: seq<Pending>, origin: nat, seqNum: nat, from: Addr): seq<Pending>
  {
    Without(chain, FirstExact(chain, FirstFrom(chain, 0, origin), seqNum, from))
  }

  function RemoveAck(pend: seq<seq<Pending>>, origin: nat, seqNum: nat, from: Addr): (r: seq<seq<Pending>>)
    requires |pend| == PEND_ACK_BUCKET_SIZE
    ensures |r| == |pend|
  {
    var b := origin % PEND_ACK_BUCKET_SIZE;
    pend[b := Acked(pend[b], origin, seqNum, from)]
  }

  /** Raise a stored sequence number, and nothing else of the entry. */
  function Raise(s: Node, origin: nat, seqNum: nat): Node
    requires origin in s.lsas
  {
    s.(lsas := s.lsas[origin := s.lsas[origin].(seqNum := seqNum)])
  }

  function RecvSeq(s: Node, origin: nat, seqNum: nat, from: Addr): Node
    requires s.nid in s.lsas && |s.pend| == PEND_ACK_BUCKET_SIZE
  {
    var s1 := s.(pend := RemoveAck(s.pend, origin, 0, from));
    if origin != s.nid then
      if origin in s.lsas && s.lsas[origin].seqNum < seqNum then Raise(s1, origin, seqNum) else s1
    else if s.lsas[origin].seqNum < seqNum + 1 then Advertise(Raise(s1, origin, seqNum + 1))
    else s1
  }

  function Recv(s: Node, packet: Packet, from: Addr): Node
    requires s.nid in s.lsas && |s.pend| == PEND_ACK_BUCKET_SIZE
  {
    match packet
    case Ack(origin, seqNum) => s.(pend := RemoveAck(s.pend, origin, seqNum, from))
    case Ad(_, _, _, _) => RecvAd(s, packet, from)
    case Seq(origin, seqNum) => RecvSeq(s, origin, seqNum, from)
  }

  // ---------------------------------------------------------------- sending

  /** Sent advertisements wait for their acknowledgement at the head of their bucket. */
  function PendAll(pend: seq<seq<Pending>>, queue: seq<Pending>): (r: seq<seq<Pending>>)
    requires |pend| == PEND_ACK_BUCKET_SIZE
    ensures |r| == |pend|
  {
    if queue == [] then pend
    else
      var p := queue[|queue| - 1];
      var before := PendAll(pend, queue[..|queue| - 1]);
      var b := p.packet.origin % PEND_ACK_BUCKET_SIZE;
      if p.packet.Ad? then before[b := [p] + before[b]] else before
  }

  function Send(s: Node): Node
    requires |s.pend| == PEND_ACK_BUCKET_SIZE
  {
    s.(queue := [], pend := PendAll(s.pend, s.queue))
  }

  // ---------------------------------------------------------------- timers

  predicate Expires(s: Node, k: nat, elapsed: int)
  {
    k in s.lsas && k != s.nid && s.lsas[k].valid && s.lsas[k].timeLeft - elapsed < 0
  }

  function Aged(s: Node, elapsed: int): map<nat, Lsa>
  {
    map k | k in s.lsas ::
      if !s.lsas[k].valid || k == s.nid then s.lsas[k]
      else s.lsas[k].(timeLeft := s.lsas[k].timeLeft - elapsed, valid := s.lsas[k].timeLeft - elapsed >= 0)
  }

  function Expired(s: Node, elapsed: int): set<nat>
  {
    set k | k in s.lsas && Expires(s, k, elapsed)
  }

  /** The addresses of the neighbours in `ids`. */
  function AddrsOf(nbs: seq<Entry<nat, Neighbour>>, ids: set<nat>): set<Addr>
  {
    set i | 0 <= i < |nbs| && nbs[i].key in ids :: nbs[i].val.Address()
  }

  function NotTo(chain: seq<Pending>, addrs: set<Addr>): seq<Pending>
  {
    if chain == [] then []
    else NotTo(chain[..|chain| - 1], addrs) + if chain[|chain| - 1].dst in addrs then [] else [chain[|chain| - 1]]
  }

  /** LSAs, directory and neighbours after the expiry pass. */
  function AgeLsas(s: Node, elapsed: int): Node
  {
    var gone := Expired(s, elapsed);
    var addrs := AddrsOf(s.nbs, gone);
    s.(lsas := Aged(s, elapsed),
       dir := WithoutObjs(s.dir, gone, s.lsas),
       nbs := SetValid(s.nbs, gone, false),
       pend := seq(|s.pend|, b requires 0 <= b < |s.pend| => NotTo(s.pend[b], addrs)),
       advLeft := s.advLeft - elapsed)
  }

  predicate NbExpires(s: Node, elapsed: int)
  {
    exists i :: 0 <= i < |s.nbs| && s.nbs[i].key in Expired(s, elapsed)
  }

  function Waiting(chain: seq<Pending>, elapsed: int): seq<Pending>
  {
    if chain == [] then []
    else
      var p := chain[|chain| - 1];
      Waiting(chain[..|chain| - 1], elapsed)
      + if p.timeLeft - elapsed < 0 then [] else [p.(timeLeft := p.timeLeft - elapsed)]
  }

  /** The entries of a chain whose acknowledgement is overdue, in the order of the send list. */
  function Overdue(chain: seq<Pending>, elapsed: int, retran: int): seq<Pending>
  {
    if chain == [] then []
    else
      var p := chain[|chain| - 1];
      (if p.timeLeft - elapsed < 0 then [p.(timeLeft := retran)] else [])
      + Overdue(chain[..|chain| - 1], elapsed, retran)
  }

  function AllOverdue(pend: seq<seq<Pending>>, elapsed: int, retran: int): seq<Pending>
  {
    if pend == [] then []
    else Overdue(pend[|pend| - 1], elapsed, retran) + AllOverdue(pend[..|pend| - 1], elapsed, retran)
  }

  function Retransmit(s: Node, elapsed: int): Node
  {
    s.(queue := AllOverdue(s.pend, elapsed, s.timers.retran) + s.queue,
       pend := seq(|s.pend|, b requires 0 <= b < |s.pend| => Waiting(s.pend[b], elapsed)))
  }

  function TimeOut(s: Node, elapsed: int): Node
    requires s.nid in s.lsas
  {
    var s1 := AgeLsas(s, elapsed);
    var s2 := if NbExpires(s, elapsed) then Reload(s1) else s1;
    var s3 := if NbExpires(s, elapsed) || s2.advLeft < 0 then Advertise(s2) else s2;
    Retransmit(s3, elapsed)
  }

  // ---------------------------------------------------------------- local requests

  /** ADDFILE of a new name; `filesAfter` is the file table in walking order afterwards. */
  function NewFile(s: Node, filesAfter: seq<string>): Node
    requires s.nid in s.lsas
  {
    var s1 := Reload(s.(files := filesAfter));
    Advertise(s1.(dir := AddObjs(s1.dir, filesAfter, s1.nid)))
  }

  // ---------------------------------------------------------------- all events

  /** What every event may assume of the state and of its own arguments. */
  predicate Enabled(s: Node, ev: Event)
  {
    && s.nid in s.lsas && |s.pend| == PEND_ACK_BUCKET_SIZE
    && (ev.AddFile? && ev.name !in s.files ==> multiset(ev.filesAfter) == multiset(s.files) + multiset{ev.name})
  }

  function Step(s: Node, ev: Event): Node
    requires Enabled(s, ev)
  {
    match ev
    case Deliver(packet, from) => Recv(s, packet, from)
    case SendAll => Send(s)
    case Tick(elapsed) => TimeOut(s, elapsed)
    case AddFile(name, filesAfter) => if name in s.files then s else NewFile(s, filesAfter)
  }

  /** The state before the event loop starts: own LSA with number 0, already queued for every neighbour. */
  function Boot(nid: nat, timers: Timers, nbs: seq<Entry<nat, Neighbour>>, files: seq<string>): Node
  {
    var own := Lsa(true, timers.lsa, LSA_MAX_TTL, 0, Body(LiveLinks(nbs, nid), files));
    Flood(Node(nid, timers, nbs, map[nid := own], files, AddObjs(map[], files, nid), [],
               seq(PEND_ACK_BUCKET_SIZE, _ => []), timers.adv, []), nid, None)
  }
}
