# Proofs about the routing daemon

The repository is a routing daemon with an object directory on top. Every node runs one daemon and one web server.
The daemons flood link state advertisements (LSAs) over UDP, with sequence numbers, acknowledgements, retransmission
and expiry. From the LSA database each daemon computes a shortest-path routing table, and fills a prefix tree that maps
object names to the nodes which hold them. A request for an object goes from web server to web server, each asking its
daemon for the next hop, until it reaches a node that has the file.

This project models the daemon (`src/`) and the way in which web servers hand a name on (`src/resp.c`,
`starter/webserver.py`) in Dafny, and proves what they promise. `dafny verify dfyconfig.toml` checks all of it.

## How the model is built

- **Tables in the heap.** `HashTable`, `DynArray`, `PrefixTree`, `RouteTable`, `Daemon` and `Parser` are classes with
  the source's fields, and their methods follow the source's loops and branches. The prefix tree has real child,
  sibling and array pointers; its array cells are reallocated as they grow and shrink. Each method is proved against a
  function of the old state.
- **One node as a step function.** `Protocol.Step` says what one event (a datagram, a writable socket, a tick,
  ADDFILE) does to a daemon's state as a value. The four event methods of `Daemon` are proved to take exactly this
  step, and to keep `Daemon.Valid`: the tables are well formed, the tree holds the directory map, the routing table
  is the shortest-path table of the present topology, and neighbour flags, own LSA and directory are right. They also
  say that what the tree gains in the heap is new, so that one event can follow another: `EventLoops.Run` is the loop.
- **What a step comes to.** `Accounts` says of each event what it does to every field and list of the state, entry by
  entry, without the functions that compute the step: who is sent what, with which time before it, what is answered, what
  is stored, dropped, put back or left alone. `Grammars` does the same for the bytes that the request parser takes or
  rejects, and `Queries.QueryAccount` for the answers of the prefix tree.
- **The network.** `Network.Net` joins any number of nodes. Its wire holds every datagram ever sent, and each may be
  delivered any number of times, at any time, in any order, or never; so loss, duplication, delay and reordering
  are all covered. A run starts with freshly booted nodes and takes any possible events. Two history variables record
  how many hops an instance (origin, number) took to each node, and what was announced under it.
- **Lookups over nodes.** `EndToEnd` follows the replies of `lookup_file` from node to node: each node is asked for the
  name as `Relaying` says it arrives there, and the next node is the one that the reply names. `Convergence` joins this
  to the network: once flooding is over, all nodes have the same map and directory, so a request arrives.

Files, from the ground up: `HashTable`, `DynArray`, `Graphs`, `Dijkstra`, `Types`, `RouteTable`, `Protocol`, `Effects`,
`Steps`, `Account`, `Network`, `Flooding`, `Reliable`, `LocalState`, `Timing`, `Interval`, `Recovery`, `Overtaking`,
`Forest`, `Query`, `PrefixTree`, `Directory`, `Ageing`, `Daemon`, `Forward`, `Relay`, `EndToEnd`, `Convergence`,
`EventLoop`, `Buffers`, `Parser`, `Grammar`.

## Main results

1. **Reliable flooding** (`Reliable.ReliableFlooding`): if ids differ modulo 50, no neighbour is ever marked down and no
   SEQ overtakes what a node accepted (a *smooth* run), then with at most 33 nodes and nothing queued or pending, every
   node reached from an origin stores exactly the last number the origin flooded.
2. **Convergence** (`Convergence.NodesAgree`, `SettledLookup`, `SettledFound`): then all nodes hold the same map and the
   same directory; a lookup of a name that some node has is handed on as many times as its nearest goal is hops away and
   answered there with the local file; and a lookup that is over has found a file if and only if some node has one.
3. **Exact directories** (`Convergence.DirectoriesExact`): in every run, at every node and time, the directory leads from an
   object to exactly the nodes whose valid LSA lists it.
4. **Bounded flooding and agreement** (`Flooding.BoundedFlood`, `HopLaw`, `InstanceAgreement`).
5. **Shortest paths** (`Dijkstra.ShortestPaths`, `RouteTables.RouteTable.UpdateRouteInfo`), for every 0/1 graph of up to 2048 nodes.
6. **The daemon's events** (`Daemons.Daemon.ProcessRtInf`, `OnWritable`, `HandleTimeOut`, `AddFileRequest`) and the event
   loop over any list of inputs (`EventLoops.Run`, `Serve`, `ServedTrace`, `PublishedFound`).
7. **Lookups** (`EndToEnd.Converges`, `NeverLoops`, `StopsAtGoal`, `FindsObject`, `FoundExactly`, `GoalsExactly`), over the
   replies of the nodes, for every name, whether or not its holders have files for shorter levels of it too.
8. **The prefix tree** (`PrefixTrees.PrefixTree.Add`, `Rm`, `GetObjList`, with `Queries.QueryLaw`, `AddRepresents`, `RmRepresents`).
9. **Requests** (`Parsing.ServeAll`, `Parsing.CallExact`, `Parsing.ResumeExact`, `Grammars.ParsesExactly`): which bytes are
   taken for which request, which are rejected, and what becomes of requests that arrive in parts.
10. **Timers** (`Timing.ExpiryExact`, `Intervals.NotSentBefore`, `SentAgain`, `FloodsSteadily`): at which tick an LSA
    expires, an advertisement is sent again, and the own LSA is flooded by itself, and at none before.
11. **The id arrays**: their amortised cost (`DynArrays.Amortised`), and when their elements lie within the allocated block
    (`DynArrays.WithinExact`).
12. **Every step of a node** (`Accounts.AdLists`, `NewAdAccount`, `MakesExactly`, `OwnSeqAccount`, `TickLists` and the others
    of that module), and a restart with a peer (`Recovery.RestartHeals`).

## Where the code does less than it seems to

Each of these is proved, with the exact condition under which the expected property holds where there is one.

- A SEQ raises the number that a node stores for another origin without any content (src/client_info.c:536-540). The
  node then only acknowledges the real advertisements up to that number, for good: `Recovery.OvertakenSwallows`,
  `TakenExact`, `SkippedForGood`. Three freshly started nodes suffice: `Overtaking.ReportOvertakes`.
- After several SEQ replies a restarted origin may have flooded only up to a number that a peer already stores:
  `Recovery.LastFloodTaken` (the condition), `StalePeer` (the case).
- `remove_pd_ack` scans on from the first entry of the sender by number and address alone (src/client_info.c:385-393), so a
  duplicate ACK can take away the advertisement of another origin in the same bucket: `Recovery.AckExact` (the
  condition on the bucket), `AckRemoves`, `AckTakesStranger`.
- `construct_graph` moves its link cursor on only past known ids (src/dijkstra.c:309-314), so an unknown id hides all
  later links: `RouteTables.TopologyFaithful`, `LinkHidden`.
- A newer LSA adds its objects but does not remove those of the LSA it replaces (src/client_info.c:489-493):
  `LocalState.DirectoryExact`. Within one incarnation of each origin it does no harm, because files are only added:
  `Convergence.DirectoriesExact`.
- `pft_get_obj_list` follows a null pointer if the matched node has no array while one above it has ids
  (src/pft.c:194-197); the comment in front of it (src/pft.c:132-145) also has `last_pre` exclude the matched node, which
  the code does not: `Queries.CrashExactly`, `CrashHappens`, `QueryLaw`.
- The first loop of `lookup_file` passes over every node that holds a shorter level of the name too (src/forward.c:78-82),
  even the node that is asked. So a node with both "a/" and "a/b" hands a request for "a/b" on to the nearest node that
  has "a/b" alone, if one can be reached: `EndToEnd.OwnAnswered` (the condition), `GoalsExactly`, `PassedOver`.
- A name is written into a URL as it is, but for a leading slash (src/resp.c:17-35), and taken out of the URL's path again
  (starter/webserver.py:111-121). So a name that begins with a backslash, ends with a space, or contains a '?', a '#' or
  a '%' with two hexadecimal digits arrives as another name, or not at all: `Relaying.RelayExact`, `RelayCuts`.
- `get_next_byte` compares with `>` (src/buf_ctrl.c:25), so a reader sees one stale byte behind the received ones, and
  follows a null pointer when exactly one byte of a block is free: `Buffers.FieldSplit`, `BytesSplit`,
  `LengthTornApart`, `Parsing.MoveExact`, `CallExact`, `WaitsIdle`, `ServeAll`.
- After each request `update_clnt_info` frees every block but the one being filled (src/client_info.c:151-158), read or not:
  `Parsing.ServeAll` says when a pipelined stream is then read from freed memory.
- The id arrays ask `realloc` for as many bytes as they have slots (src/darr.c:39, src/darr.c:56), where a slot takes four
  bytes. The elements lie within the block exactly as long as there is never a fifth one, nor any once the array has
  been emptied: `DynArrays.WithinExact`.
- `add_localfile` copies a path of up to 512 bytes into 256 (src/config.c:215-216, src/config.h:18, src/parser.h:7):
  `Daemons.Daemon.AddLocalFile` says exactly when it goes past the end.

## Model

| member | source | states |
|---|---|---|
| HashTables.HashTable.Insert | src/ht.h:15-23 | whatever the key, the table stands for the old map with the new pair, its chains stay in their buckets and the walking order gains one entry; keys are unique afterwards exactly if they were and the key is new |
| HashTables.HashTable.Find | src/ht.h:25-38 | in any table: the value of the first entry with the key, which is that of the map the table stands for, and nothing exactly if the key is not there |
| HashTables.HashTable.Remove | src/ht.h:46-65 | in any table: the first entry with the key goes and the count stays exact; if keys are unique, the table stands for the old map without the key, with unique keys |
| HashTables.HashTable.Store | src/lsa.c:229-235 | a write through the pointer that a search returned changes the first entry with the key, in its place in the walk, and the map at that key; if keys are unique, no other entry has it |
| HashTables.HashTable.Walk | src/lsa.c:85-99 | in any table the nested walk over buckets and chains yields every entry once, in chain order |
| HashTables.HashTable.Locate | src/ht.h:47-61 | the scan stops at the first entry with the key of all in walking order, exactly if the key is in the map |
| HashTables.MapOfSize | src/ht.h:22-64 | with unique keys the number of stored entries is the number of keys, so `entr_cnt` counts nodes |
| HashTables.Splice | src/ht.h:15-65 | changing a stretch of one chain is the same change in the walking order, and keeps every key in its bucket |
| DynArrays.StepCost | src/darr.c:34-64 | each addition or removal costs at most 3 against the potential, and keeps the capacity a power of two of at least 2 and not below the length |
| DynArrays.Amortised | src/darr.c:1-64 | any m additions and removals on a new array cost at most 3 m + 4 element writes and copies |
| DynArrays.WithinExact | src/darr.c:17-64 | over additions and removals on a new array the elements lie within the block asked for in bytes, after each, if and only if there is never a fifth element, nor any once the array has lost its last one |
| DynArrays.DynArray.AddElem | src/darr.c:86-97 | the contents gain the element at the end; capacity and cost move as the cost model says |
| DynArrays.DynArray.RmElemByIdx | src/darr.c:120-134 | the last element takes the free place; the capacity halves below a quarter; an index out of range changes nothing |
| DynArrays.DynArray.GetElemIdx | src/darr.c:70-80 | the first index of the element, or the length if it is not there |
| DynArrays.DynArray.Merge | src/darr.c:102-112 | the contents become the old ones followed by those of the source array |
| DynArrays.DynArray.Resize | src/darr.c:34-64 | a reallocation keeps the elements in use and copies the smaller of the two sizes, both in elements |
| Dijkstra.RelaxNeighbours | src/dijkstra.c:126-136 | after the inner loop exactly the neighbours that the new node makes nearer have a new distance, with that node as predecessor |
| Dijkstra.NearestUnvisited | src/dijkstra.c:114-119 | the chosen node is unvisited and has the least distance of all unvisited nodes |
| Dijkstra.RoundStep | src/dijkstra.c:111-137 | one round of the outer loop keeps the shortest-path forest over visited nodes and the bound that unreachable nodes never relax anything |
| Dijkstra.TreeHops | src/dijkstra.c:126-136 | a finite distance is the length of the walk described by `prev` |
| Dijkstra.WalksAreLong | src/dijkstra.c:97-138 | once all nodes are visited, no walk from the source is shorter than the distances, and none leads to a node left at INFINITY |
| Dijkstra.ShortestPaths | src/dijkstra.c:97-138 | for every 0/1 graph of 1 to 2048 nodes the distances are the least hop counts, INFINITY exactly for unreachable nodes, and `prev` is a shortest-path tree |
| RouteTables.NextHop | src/dijkstra.c:71-94 | following `prev` terminates: the source itself for the source, no hop exactly for unreachable nodes, and otherwise an out-neighbour of the source that is one hop nearer to the destination |
| RouteTables.IndexByNodeId | src/dijkstra.c:25-35 | the index of the node id, or -1 exactly if it is not in the array |
| RouteTables.CollectNodeIds | src/dijkstra.c:251-274 | `g_node_id` lists every known node exactly once, self first |
| RouteTables.FillSelfRow | src/dijkstra.c:285-289 | row 0 holds exactly the links to own valid neighbours that are known |
| RouteTables.FillRow | src/dijkstra.c:302-315 | a later row holds exactly the advertised links before the first one to an unknown node |
| RouteTables.TopologyFaithful | src/dijkstra.c:302-315 | every edge is an advertised link of a valid LSA; every advertised link between known nodes is an edge if and only if every known id behind an unknown one is advertised in front of it too |
| RouteTables.TopologyExactly | src/dijkstra.c:276-316 | the edges one by one: own ones to known valid neighbours, foreign ones from valid LSAs alone, to known ids with known ids alone in front of them |
| RouteTables.LinkHidden | src/dijkstra.c:302-315 | a lost link: node 2 advertises links to the unknown node 9 and to node 1, and the second one is no edge |
| RouteTables.ConstructGraph | src/dijkstra.c:241-323 | the matrix is the topology graph under the bijection `g_node_id` between indices and known nodes |
| RouteTables.LineOk | src/dijkstra.c:168-176 | a distance and next hop by index give a correct routing line by node id |
| RouteTables.SortTable | src/dijkstra.c:178-179 | what the library sort must deliver: the same lines, ordered by destination |
| RouteTables.RouteTable.FillRouteTable | src/dijkstra.c:152-185 | one line per known node, sorted, each with hop distance and a next hop on a shortest walk |
| RouteTables.ValidNeighbours | src/dijkstra.c:376-400 | exactly the ids of the neighbours that are marked up |
| RouteTables.RouteTable.UpdateRouteInfo | src/dijkstra.c:403-424 | the routing table is the shortest-path table of the topology given by valid neighbours and valid LSAs |
| RouteTables.RouteTable.FindRouteEntry | src/dijkstra.c:427-446 | binary search finds a line of the destination exactly if there is one |
| Effects.FloodAdsCount | src/client_info.c:659-698 | a flood creates exactly one advertisement per target, all with the stored ttl, number and body, and no other packet |
| Effects.TargetsOnce | src/client_info.c:663-681 | with distinct addresses an address is a target at most once, namely if it is not that of the sender and a neighbour that is up, not self and not the origin has it |
| Effects.PendAllCount | src/client_info.c:298-326 | sending moves every queued advertisement to the pending table once, and no other packet |
| Effects.RemoveAckCount | src/client_info.c:375-410 | an acknowledgement takes away at most one pending entry, and no other count changes |
| Effects.NotToCount | src/client_info.c:338-370 | a neighbour going down takes away every pending entry for its address and no other |
| Effects.WaitingOrOverdue | src/sel_timeout.c:138-170 | each pending entry either waits on with less time or moves to the send list; none is lost or doubled |
| Effects.RetransmitKeeps | src/sel_timeout.c:126-174 | retransmission conserves the number of copies of every packet in send list and pending table together |
| Steps.Conservation | src/client_info.c:291-410 | under every event a held advertisement's copies change only by the one flood of the event and by the losses that an ACK, a SEQ or a neighbour going down causes |
| Steps.RepliesOnly | src/client_info.c:478-523 | an ACK or SEQ is queued only if it was already, or as the reply to the advertisement that has just arrived |
| Steps.StepShape | src/client_info.c:317-320 | pending entries are always advertisements in the bucket of their own origin |
| Steps.OwnNumber | src/client_info.c:700-703 | the own number moves only with an own flood, to one past the flooded number, and what is flooded is what is then stored |
| Steps.ForeignNumber | src/client_info.c:484-549 | another origin's number moves only by accepting an advertisement or by a SEQ that reports more |
| Steps.AcceptEffect | src/client_info.c:484-516 | an accepted advertisement is stored as valid with its number and body, and flooded on except to its sender exactly if its ttl allows one more hop |
| Steps.ForeignFlood | src/client_info.c:506-510 | whatever a node floods that is not its own it has just accepted |
| Accounts.FloodEach | src/client_info.c:659-698 | a flood lists, last line first, one advertisement with the retransmission interval for each line that is up, is neither the own nor the origin's, and is not at the address of the sender |
| Accounts.AdLists | src/client_info.c:472-523 | after a foreign advertisement the send list begins with the reply, then the flood exactly if the number is new and a hop is left, one hop less; the pending table and the timers stay |
| Accounts.ReplyExactly | src/client_info.c:478-523 | the reply is a report of the stored number if and only if the advertisement is numbered 0 and a number above 0 is stored, valid or not; otherwise it acknowledges |
| Accounts.OwnAdAccount | src/client_info.c:472-476 | an own advertisement that comes back changes nothing |
| Accounts.OldAdAccount | src/client_info.c:478-523 | a number that is not new changes nothing but the send list |
| Accounts.NewAdAccount | src/lsa.c:170-219 | a new one is stored valid, with one hop less and the interval of its kind; no other foreign LSA changes; the own one is rebuilt exactly if a neighbour comes up again |
| Accounts.NewAdNbs | src/client_info.c:496-502 | its origin is up afterwards, and no other line changes |
| Accounts.NewAdDir | src/client_info.c:489-493 | its objects lead to its origin besides, and the directory does not change otherwise |
| Accounts.AckAccount | src/client_info.c:375-410 | an acknowledgement takes away the first entry with its number and address that is from its origin or behind one that is, in the one bucket, and changes nothing else |
| Accounts.SeqAccount | src/client_info.c:527-540 | a report about another node does that for number 0, and raises the stored number if it is lower, leaving the rest of that LSA |
| Accounts.OwnSeqAccount | src/client_info.c:541-549 | one about the node itself makes it flood one above the report, with the old contents, exactly if its next number is not above the report, and restarts the timer |
| Accounts.SendAccount | src/client_info.c:291-329 | sending empties the send list and puts its advertisements, last first and unchanged, in front of the buckets of their origins |
| Accounts.TickTables | src/sel_timeout.c:64-101 | a tick takes its time from every valid foreign LSA, marks exactly those as expired that had less left, and marks down exactly the neighbours among them |
| Accounts.TickDir | src/sel_timeout.c:81-84 | the directory loses exactly the listed objects of the nodes that expire |
| Accounts.TickOwnLsa | src/sel_timeout.c:106-119 | the own LSA is flooded exactly if a neighbour goes down or the timer has run out, rebuilt exactly in the first case, and the timer then starts again |
| Accounts.TickLists | src/sel_timeout.c:126-174 | the send list gains what is overdue, last first and with a full interval, in front of the flood; what is for a neighbour that goes down is dropped; the rest waits in order with less time |
| Accounts.FileAccount | src/client_info.c:236-259 | ADDFILE of a known name changes nothing; of a new one it rebuilds and floods the own LSA, adds to the directory and restarts the timer |
| Accounts.BootAccount | src/routed.c:127-185 | after the start the own LSA numbered 0 is queued for everybody, the next number is 1, and nothing is pending |
| Accounts.MakesExactly | src/client_info.c:659-698 | over all events and packets: with distinct addresses an address gets a new advertisement once, if somebody is up there who is neither the node nor the origin, and not for a foreign one at the sender's address; and else none |
| Network.FirstTime | src/client_info.c:484-510 | a node never accepts or originates the same instance twice |
| Network.Arrival | src/client_info.c:433-441 | an arriving packet was sent by a known node that could say it, and an advertisement's ttl tells its hop count |
| Network.MoveHistory | src/client_info.c:484-510 | an instance that took k hops to a node is known by more than k nodes |
| Network.NextInv | src/client_info.c:413-553 | every event at any node keeps the network invariant, and knowledge never shrinks |
| Flooding.StartInv | src/routed.c:127-185 | freshly booted nodes satisfy the network invariant |
| Flooding.RunInv | src/routed.c:188-213 | the invariant holds in every state of every run |
| Flooding.InstanceAgreement | src/client_info.c:700-711 | any two advertisements with the same origin and number, anywhere and at any two times of a run, carry the same links and objects |
| Flooding.NumbersNeverDecrease | src/lsa.c:225-237 | stored numbers never decrease, and an own flood always uses a number never flooded before |
| Flooding.HopLaw | src/lsa.c:203-207 | an advertisement on its k-th hop carries ttl 33 - k, and k is between 1 and 32 |
| Flooding.CreatedPerNode | src/client_info.c:645-698 | a node creates at most one advertisement of an instance per neighbour, in any run |
| Flooding.BoundedFlood | src/client_info.c:645-698 | over all nodes and for any run, the advertisements ever created for one instance are at most as many as there are neighbour entries |
| Flooding.HeldOnce | src/client_info.c:291-329 | an advertisement for a destination is never in send list and pending table at once, nor twice in either |
| Reliable.Persists | src/client_info.c:331-410 | a held advertisement stays held until it is answered or the neighbour it is for goes down |
| Reliable.FloodCovers | src/client_info.c:659-698 | a flood reaches every neighbour it is meant for |
| Reliable.NewlyServed | src/client_info.c:484-510 | what a node has just originated or accepted with ttl above 1 it holds for every neighbour that may not know it |
| Reliable.AnswererHas | src/client_info.c:375-410 | if ids differ modulo 50, whoever answers a pending advertisement stores the instance or a later one |
| Reliable.RunReliable | src/client_info.c:484-516 | in a run without neighbour timeouts and overtaking SEQs, every node that originated or accepted an instance with ttl above 1 holds it for each neighbour that does not store it yet |
| Reliable.LastHop | src/lsa.h:7 | an instance that used up all its hops is known to at least 33 nodes |
| Reliable.ReliableFlooding | src/client_info.c:484-516 | at most 33 nodes, nothing queued or pending: every node reachable from o stores exactly o's last flooded number, whatever was lost, doubled or reordered |
| LocalState.OwnLsaFaithful | src/lsa.c:27-123 | the own LSA lists exactly the valid neighbours other than self and exactly the local files |
| LocalState.WithoutObjsMaps | src/pft.c:301-312 | expiry takes exactly the expired nodes' listed objects out of the directory |
| LocalState.StepFlags | src/sel_timeout.c:81-98 | after every event a neighbour is marked down if and only if the database holds an expired LSA from it, and the own LSA is up to date |
| LocalState.StepLocal | src/client_info.c:496-502 | every event keeps the neighbour flags, the own LSA and a directory that covers all valid LSAs |
| LocalState.BootLocal | src/lsa.c:127-139 | all of this holds after the start, and the directory is then exact |
| LocalState.DirectoryExact | src/client_info.c:489-493 | an event keeps the directory exactly the objects of valid LSAs if and only if it does not replace a valid LSA by one that drops an object |
| Timing.AcceptRestarts | src/lsa.c:192-199 | acceptance restarts the life of an LSA, with the neighbour or the general interval |
| Timing.ExpiryExact | src/sel_timeout.c:65-99 | with ticks T apart, an LSA with life I that is not renewed is still valid exactly while there were at most floor(I / T) ticks |
| Timing.WaitsStep | src/sel_timeout.c:138-170 | while it is not answered and the neighbour it is for does not go down, only a tick moves a waiting entry on, and only when its time runs out |
| Timing.WaitsThrough | src/sel_timeout.c:126-174 | and so, whatever happens to other neighbours, an entry with time R waits through floor(R / T) ticks of length T |
| Timing.RetransmitExact | src/sel_timeout.c:126-174 | and exactly the next tick puts it back into the send list with a full interval |
| Intervals.AdvStep | src/sel_timeout.c:103-119 | under any event the own number moves and the advertisement timer restarts exactly if the node is prompted, or a tick finds the timer run out; otherwise the number stays and the timer goes down with ticks alone |
| Intervals.AdvertisesExactly | src/sel_timeout.c:37-119 | with ticks T apart and a timer at A, a node that nothing prompts does not flood before tick number floor(A / T) + 1, and floods at that one |
| Intervals.FloodsSteadily | src/sel_timeout.c:37-119 | and so it floods at every tick whose number is a multiple of floor(A / T) + 1, and at no other |
| Intervals.FullThrough | src/lsa.c:290-305 | whatever puts an advertisement into the send list, it has the full retransmission interval before it, in every trace |
| Intervals.OnceThrough | src/client_info.c:659-698 | in every trace an advertisement is made at most once for an address, held at most as often, and its number is used up |
| Intervals.NotSentBefore | src/sel_timeout.c:126-174 | from the start on: an advertisement that is sent, and not answered, is not in the send list again before tick number floor(R / T) + 1 after that |
| Intervals.SentAgain | src/sel_timeout.c:126-174 | and that tick puts it there again, once, with a full interval |
| Recovery.OwnNumberGrows | src/lsa.c:225-237 | over any events the own number never decreases |
| Recovery.RestartRecovery | src/client_info.c:527-551 | a SEQ reporting n makes the origin flood exactly if its next number is not above n; the flood has number n + 1 and is held for every live neighbour; afterwards the next number stays above n whatever SEQs arrive |
| Recovery.RestartHeals | src/client_info.c:478-549 | a restarted origin's advertisement 0 makes a peer that stores n > 0 report n and nothing else; the report makes the origin flood n + 1 to all that are up; the peer stores that one |
| Recovery.PeerAccepts | src/client_info.c:478-524 | a peer that stores n takes exactly the advertisements numbered above n |
| Recovery.LastFloodTaken | src/client_info.c:543-548 | a peer takes the origin's last flood if and only if the origin's next number is not one above what the peer stores |
| Recovery.StalePeer | src/client_info.c:543-548 | two SEQs, 1 and then 2: the second one causes no flood and its sender ignores the flood numbered 2 |
| Recovery.HeldThrough | src/client_info.c:291-410 | an advertisement, also the one numbered 0 after a restart, stays queued or pending until it is answered or the neighbour it is for goes down |
| Recovery.OvertakenSwallows | src/client_info.c:536-540 | after a SEQ has raised a stored number, advertisements up to that number are only acknowledged, neither stored nor flooded |
| Recovery.OvertakenSkips | src/client_info.c:536-540 | after a SEQ that overtakes, the node stores a number that it has not accepted |
| Recovery.TakenExact | src/client_info.c:536-540 | stored numbers remain accepted ones if and only if no SEQ overtakes |
| Recovery.SkippedForGood | src/client_info.c:484-523 | a skipped instance is never accepted later in the run |
| Recovery.AckExact | src/client_info.c:385-393 | acknowledgements for origin o can remove entries of o only, if and only if in its bucket every entry of another origin, at or behind the first one of o, has an earlier one of o there with its number and address |
| Recovery.AckRemoves | src/client_info.c:385-393 | under that condition an acknowledgement for a pending entry of o removes an entry of o with its number and address |
| Recovery.DistinctNoStranger | src/client_info.c:317-320 | the condition holds if no other origin in the table is equal to o modulo 50 |
| Recovery.AckTakesStranger | src/client_info.c:385-393 | otherwise a duplicate ACK for node 1 can take away an advertisement of node 51 |
| Overtaking.ReportOvertakes | src/client_info.c:478-549 | a run of three fresh nodes: origin 1 floods 0 and 1, node 3 takes 1, node 2 passes 0 on to it and gets the SEQ 1, which overtakes; node 2 does not take the advertisement 1 that then arrives, nor later |
| Forests.FieldsJoin | src/pft.c:27-52 | the fields of a name concatenate to it, and a slash stands exactly at the end of every field but perhaps the last |
| Forests.FieldsInjective | src/pft.c:27-52 | distinct names have distinct field lists |
| Forests.AddLaw | src/pft.c:74-130 | adding (o, n) changes the ids at o's path only, by adding n; the nodes afterwards are the old ones and those on the path |
| Forests.AddProper | src/pft.c:74-130 | adding keeps sibling prefixes distinct and arrays free of repetitions |
| Forests.RmLaw | src/pft.c:206-242 | removing (o, n) changes the ids at o's path only, by taking n out; no node appears or disappears |
| Forests.RmProper | src/pft.c:206-242 | removing keeps sibling prefixes distinct and arrays free of repetitions |
| Forests.RemoveIdSet | src/pft.c:237-241 | taking an id out of an array takes it out of its set, and repeats nothing |
| Queries.DepthLaw | src/pft.c:166-189 | the walk reaches the deepest node whose path is a level prefix of the name |
| Queries.QueryLaw | src/pft.c:146-201 | a query returns the array of that node, as last prefix the deepest non-empty array on the path, and as all prefixes exactly the concatenated arrays of its proper ancestors |
| Queries.CrashExactly | src/pft.c:194-197 | a query follows a null pointer if and only if the deepest node has no array and some node above it has ids |
| Queries.CrashHappens | src/pft.c:194-197 | such a query: "a/" held by 1, "a/b/c" held by 2, and "a/b/" asked for |
| Queries.AddRepresents | src/pft.c:74-130 | a tree that represents a directory map represents the map with n added at o afterwards |
| Queries.RmRepresents | src/pft.c:206-242 | and the map without n at o after a removal |
| Queries.SameQuery | src/pft.c:146-201 | two trees that represent the same map answer every query alike, up to the order of ids |
| Queries.CoverWithin | src/pft.c:166-189 | the ids that a query has collected at a level are those to which the map leads for some leading part of the name down to that level |
| Queries.QueryAccount | src/pft.c:146-201 | told by the directory: the deepest level of a name that leads to anything gives the ids if it is a name there, with all ids of the levels in front; otherwise a null pointer is followed if a level in front has ids, and there is no array if not |
| Queries.LastAccount | src/pft.c:184-188 | the last prefix is the last level that has any ids, and there is none if no level has |
| PrefixTrees.NextField | src/pft.c:27-52 | the next field reaches up to and with the next slash, and there is none exactly at the end |
| PrefixTrees.PfNode.StoreId | src/pft.c:113-127 | the node's array, made if missing, gains the id unless it is there |
| PrefixTrees.PfNode.RemoveId | src/pft.c:237-241 | the node's array loses the id if it is there |
| PrefixTrees.Search | src/pft.c:87-93 | the scan of a sibling list finds the node with the prefix if there is one |
| PrefixTrees.PrefixTree.Link | src/pft.c:95-104 | a new node becomes the head of the sibling list below its parent, or of the top level |
| PrefixTrees.PrefixTree.FindOrMake | src/pft.c:84-109 | after the walk every field of the name has a node, and adding at the name means the same as before |
| PrefixTrees.PrefixTree.Add | src/pft.c:74-130 | the pointer tree stays well formed and its value is the old forest with n added at o |
| PrefixTrees.PrefixTree.Rm | src/pft.c:206-242 | its value is the old forest with n removed at o; a null pointer is followed exactly if the node of that name has no array |
| PrefixTrees.PrefixTree.Gather | src/pft.c:164-189 | the loop collects the arrays on the path and stops at the deepest node |
| PrefixTrees.PrefixTree.Conclude | src/pft.c:191-200 | taking the match's own ids off the scratch array gives the answer of the query, or crashes when the query does |
| PrefixTrees.PrefixTree.GetObjList | src/pft.c:146-201 | the answer is that of `Query` on the tree's value, and only the scratch array changes |
| Directories.AddObjFromLsa | src/pft.c:283-295 | the tree represents the map with the sender added at each listed object |
| Directories.RmObjFromLsa | src/pft.c:301-312 | the tree represents the map with the sender removed at each listed object, and no null pointer is followed |
| Ageing.AgedGone | src/sel_timeout.c:81-99 | handling one expired LSA in the middle of the pass is one more step of the simultaneous expiry |
| Ageing.AgedToAll | src/sel_timeout.c:64-101 | the pass over all buckets amounts to simultaneous expiry |
| Ageing.RoutesKept | src/client_info.c:443-452 | events other than advertisements and ticks leave the routing table right |
| Ageing.SameTopology | src/dijkstra.c:292-316 | the topology depends on known ids, validity and links of other nodes' LSAs only |
| Daemons.Daemon.InitLocalLsa | src/lsa.c:27-123 | the own LSA enters the table with the live neighbours and the files in walking order |
| Daemons.Daemon.ReloadLocalLsa | src/lsa.c:145-165 | the own LSA is rebuilt with its number unchanged, and nothing else changes |
| Daemons.Daemon.UpdateLsaEntr | src/lsa.c:170-219 | the stored LSA is replaced by the received one, with one hop less and its life restarted |
| Daemons.Daemon.UpdateSeqNum | src/lsa.c:225-237 | the stored number rises to the given one exactly if it was lower, and nothing else changes |
| Daemons.Daemon.QueueAds | src/client_info.c:659-698 | the send list gains, in front, one advertisement for each target |
| Daemons.Daemon.PrepFlood | src/client_info.c:645-715 | one flood: the target advertisements, and the own number one up if it is the own LSA |
| Daemons.Daemon.RemovePdAck | src/client_info.c:375-410 | exactly the entry found by the scan leaves the pending table |
| Daemons.Daemon.SendRdInfo | src/client_info.c:291-329 | the send list is emptied and its advertisements head their pending buckets |
| Daemons.Daemon.RmPdByAddr | src/client_info.c:331-373 | exactly the entries for the address leave the pending table, in every bucket |
| Daemons.Daemon.ProcessRetranTimeout | src/sel_timeout.c:126-174 | overdue entries move to the send list with a fresh interval, the others have less time left |
| Daemons.Daemon.ReceiveAd | src/client_info.c:472-523 | the four cases of an advertisement: own, restarted origin, newer, not newer |
| Daemons.Daemon.ReceiveSeq | src/client_info.c:534-549 | the own and the foreign case of a SEQ |
| Daemons.Daemon.AgeAll | src/sel_timeout.c:64-101 | the loop that invalidates, removes objects, marks neighbours down and drops their pending entries one LSA at a time equals simultaneous expiry, and sets the two flags accordingly |
| Daemons.Daemon.ProcessTimeout | src/sel_timeout.c:106-124 | own LSA, flood and routes follow the flags, and the routes are right afterwards |
| Daemons.Daemon.AddLocalFile | src/config.c:201-237 | a name is added once, if the list on disk can be written, and nothing changes otherwise; a buffer is overrun exactly if the name is new and it or the path is too long |
| Daemons.Daemon.Start | src/routed.c:119-185 | from loaded tables with the own line and every neighbour up the daemon reaches the boot state and satisfies its invariant |
| Daemons.Daemon.ProcessRtInf | src/client_info.c:413-553 | any datagram takes the daemon through exactly the protocol step, and keeps tables, tree, routes, flags and directory right |
| Daemons.Daemon.OnWritable | src/client_info.c:291-329 | so does a writable socket |
| Daemons.Daemon.HandleTimeOut | src/sel_timeout.c:196-212 | so does a tick |
| Daemons.Daemon.AddFileRequest | src/client_info.c:236-259 | so does ADDFILE: a new file takes the step and joins the table, an existing name or an unwritable list changes nothing, and it is said exactly when a buffer is overrun |
| Forwarding.ChooseNearest | src/forward.c:76-94 | one loop finds the least cost, with its next hop, among all candidates that have a routing line and are not to be skipped |
| Forwarding.ChooseHop | src/forward.c:76-111 | the second loop runs only if the first finds no next hop |
| Forwarding.ChosenMeans | src/forward.c:76-119 | the chosen next hop is the first step of a shortest walk to a nearest reachable candidate: exact ones before the fallback; there is none exactly if no candidate is reachable |
| Forwarding.TableHopsLive | src/dijkstra.c:389-392 | every real next hop in the routing table other than self is in the neighbour table and marked up |
| Forwarding.HopIsNeighbour | src/forward.c:116-119 | the same for the next hop of a lookup |
| Forwarding.LookupFile | src/forward.c:54-136 | the reply is made from a correct next hop: the local file at the own node, that neighbour's line elsewhere, absent without a hop; a null pointer is followed exactly when the query does; the daemon's state and tree are unchanged and its invariant holds |
| Relaying.PathOfQuote | starter/webserver.py:153 | percent-encoding a URL does not move the end of its path |
| Relaying.DecodeQuote | starter/webserver.py:111-153 | decoding undoes the encoding, and decodes besides what looked encoded in the name itself |
| Relaying.RelayExact | src/resp.c:17-35 | a name in printable ASCII arrives at the next node as it was sent if and only if it does not begin with a backslash or end with a space, and has neither '?' nor '#' nor a '%' in front of two hexadecimal digits |
| Relaying.RelayCuts | src/resp.c:17-35 | a name that does not: "a?b" arrives as "a" |
| Relaying.RelayedSame | starter/webserver.py:111-154 | and such a name arrives as it was sent over any number of nodes |
| EndToEnd.GoodOnMap | src/forward.c:88-92 | the loop that only a node's own map has at itself changes no choice |
| EndToEnd.HopStep | src/forward.c:54-136 | a lookup ends at distance 0 and otherwise names another node one hop nearer, with no new candidates and in the same phase |
| EndToEnd.ReplyStep | src/forward.c:116-136 | a node at distance 0 replies with its own file; any other replies with the neighbour line of a node that is one hop nearer |
| EndToEnd.OwnNodeAnswer | src/pft.c:191-200 | for a name that is a node with an array the query finds that array |
| EndToEnd.HoldersOwn | src/forward.c:121-127 | where nodes agree, the directory leads from a name exactly to the nodes with a file of that name |
| EndToEnd.HeldGoals | src/forward.c:76-111 | if a name has holders, every goal of its lookup is one, though they may all claim a shorter prefix too; and there is a goal exactly if a known holder can be reached |
| EndToEnd.CandidatesAccount | src/forward.c:76-111 | for any name, held or not: the first loop takes the known holders of the deepest level that no level in front leads to, the second the known holders of the last level that has any |
| EndToEnd.NoCandidates | src/forward.c:65-73 | and where that level is no name of the directory, there are none |
| EndToEnd.GoalsExactly | src/forward.c:76-111 | the goals of a name that some node has: the reachable nodes that have the file and none for a shorter level of the name, or if there is none of them, all reachable nodes that have the file |
| EndToEnd.Converges | src/forward.c:54-136 | if nodes agree on map and directory and each is asked for the name as it is relayed, every hop that a reply names lowers the distance to the nearest candidate by exactly one |
| EndToEnd.NeverLoops | src/forward.c:54-136 | following the replies visits no node twice |
| EndToEnd.StopsAtGoal | src/forward.c:116-133 | following the replies takes as many hops as the nearest candidate was away: before, each reply names another node one hop nearer; then the node asked is a candidate and replies with its own file |
| EndToEnd.FindsObject | src/forward.c:54-136 | for a name that some node has, the lookup is handed on as many times as the nearest goal is hops away, and the last reply is the local file of that name there |
| EndToEnd.FoundExactly | src/forward.c:113-136 | a lookup that is over ends with a file if and only if a node with a file of that name can be reached from where it began, and then with the path in that file table |
| EndToEnd.OwnAnswered | src/forward.c:78-82 | a node that has the file answers with it if and only if it has no file for a shorter level of the name, or no node with the file and without such another one can be reached; otherwise it hands the request on |
| EndToEnd.PassedOver | src/forward.c:78-82 | it happens: node 1 has "a/" and "a/b", node 2 has "a/b", and the one goal of "a/b" at node 1 is node 2 |
| Convergence.DirectoriesExact | src/client_info.c:489-493 | in every run, at every node: flags and own LSA are right, and an object leads to exactly the nodes whose valid LSA lists it |
| Convergence.AcceptsMore | src/client_info.c:484-493 | an accepted advertisement lists at least the objects of the LSA it replaces, in any run |
| Convergence.RunCurrent | src/lsa.c:145-165 | in a smooth run every stored body is the one last announced under the stored number, and the own body is the one last flooded |
| Convergence.SeesTrueMap | src/dijkstra.c:241-323 | if bodies agree, every node's topology is the map of all announced links |
| Convergence.NodesAgree | src/client_info.c:484-516 | once the flooding of a smooth run is over, all nodes see one map and one directory |
| Convergence.SettledLookup | src/forward.c:54-136 | and then a request for a name that can be relayed and that some node has, with its nearest goal d hops away, is handed on d times, and the last reply is the file path at a node that has the file |
| Convergence.SettledFound | src/forward.c:113-136 | in that state a lookup that is over has found a file if and only if some node has a file of that name |
| EventLoops.DaemonStore | src/forward.c:121-127 | the object tree and file table of any daemon in its invariant represent its directory and its files, as the lookups over nodes suppose |
| EventLoops.Handle | src/routed.c:191-207 | one round: whatever the input, the daemon takes the step that belongs to it, or answers without a step, and keeps its invariant; nothing joins its objects but new ones |
| EventLoops.Run | src/routed.c:188-213 | any list of inputs, one after the other: each is served from the state that the one before left, and the invariant holds at the end; the loop stops early exactly behind a null pointer or an overrun |
| EventLoops.Serve | src/routed.c:119-213 | the same from the start: the loop begins in the boot state of the loaded tables |
| EventLoops.ServedTrace | src/routed.c:188-213 | with ticks t apart, what the loop does to the state of its daemon is a trace of events, of which the timer results speak |
| EventLoops.PublishedFound | src/config.c:201-237 | once ADDFILE has taken a file, every later local answer for its name is its path, and another ADDFILE of that name is refused and changes nothing, whatever the loop serves in between |
| Buffers.StoredLaw | src/client_info.c:164-182 | storing a stream block by block keeps every byte in its place |
| Buffers.GetNextByte | src/buf_ctrl.c:20-36 | the byte at the cursor's stream position, one stale byte behind the end, then no more or a null pointer |
| Buffers.GetBytes | src/buf_ctrl.c:40-66 | the next bytes across blocks, or the cursor unmoved if they are not all there |
| Buffers.GetNextField | src/buf_ctrl.c:71-117 | the next word across blocks, or the cursor unmoved if it is incomplete or too long |
| Buffers.FieldSplit | src/buf_ctrl.c:25-28 | a word read from the first part of a stream is that of the whole stream if and only if a space stands among the received bytes behind its first character, or the stale byte equals the one that arrives |
| Buffers.LongSplit | src/buf_ctrl.c:96-99 | a word that is too long already is too long in the whole stream |
| Buffers.BytesSplit | src/buf_ctrl.c:25-28 | a number of bytes likewise, if and only if all are received, or the stale byte equals the one that arrives |
| Buffers.LengthTornApart | src/buf_ctrl.c:25-28 | a case where it is not: a torn 12 is read as 1 |
| Parsing.StrMatch | src/str_helper.c:83-113 | binary search finds the string in an ascending list exactly if it is there |
| Parsing.DigitsLaw | src/str_helper.c:9-31 | the printed decimal of a length is read back as that length |
| Parsing.StepLaw | src/parser.c:201-234 | each step keeps the cursor in the stream and strictly advances the status, or reports an error, or changes nothing |
| Parsing.OneRun | src/parser.c:201-234 | parse_req has one outcome for each stream and record |
| Parsing.Parser.ParseMethod | src/parser.c:42-73 | the method step on the blocks is that on the byte stream |
| Parsing.Parser.ParseLen | src/parser.c:75-131 | the length step likewise, with its limits |
| Parsing.Parser.ParseData | src/parser.c:133-197 | the data step likewise |
| Parsing.Parser.ParseReq | src/parser.c:201-234 | parse_req terminates and ends as the run on the byte stream does; it reports a full request exactly if it is done or in error |
| Parsing.ParsesBack | src/parser.c:42-234 | a printed request, wherever it stands in a stream, is parsed back to itself, and the cursor ends right behind it |
| Parsing.MoveExact | src/parser.c:201-234 | a step on the first part of a stream is that on the whole stream if and only if the received bytes hold the space behind the word, or the bytes of the field up to its end or to a NUL, or the stale byte equals the one that arrives |
| Parsing.CallExact | src/parser.c:201-234 | a call on the part goes through the records of the call on the whole if and only if that holds of its last step |
| Parsing.WrongAgain | src/parser.c:225-231 | an error that is reported on received bytes is reported on the whole stream |
| Parsing.Resume | src/parser.c:201-234 | calling parse_req on a part, and again on the whole unless it is done or in error, ends like one call on the whole, if the first call kept to the received bytes |
| Parsing.ResumeExact | src/parser.c:201-234 | of a call on a part that went through any records, the last step is one that a call on the whole goes through if and only if it kept to the received bytes, or the stale byte equals the one that arrives |
| Parsing.ReachesEnds | src/parser.c:201-234 | a call that goes through a record ends as a second call does that begins there |
| Parsing.WaitsIdle | src/buf_ctrl.c:20-36 | between requests the parser waits without moving, or follows a null pointer where one byte of the block is free |
| Parsing.ServeAll | src/rt_ctrl.c:126-156 | any list of printed requests, sent in one stream over any number of blocks, is read back exactly, one per call; and it is said exactly when the last call crashes and when freed blocks are read |
| Grammars.ReadsExactly | src/buf_ctrl.c:71-117 | a word is read exactly where one begins behind spaces, is short enough and is ended by a space |
| Grammars.NumberExactly | src/str_helper.c:9-31 | a string is a number exactly if it is white space, a sign or none, and one or more decimal digits, and its value is theirs |
| Grammars.ParsesExactly | src/parser.c:42-234 | from the bytes alone: an error exactly if the method is too long or unknown, or a length is too long, no number, or not in 1..9 and 1..512; a request exactly if that request stands there, with the cursor behind it; otherwise the call waits, or follows the null pointer |

## Left out

- Parsing.ServeAll: keeps the bytes of freed blocks readable; it says when a freed block is read from, and not what is then read.
- Daemons.Daemon.ProcessRtInf: requires that object names in an advertisement are not empty (`pft_add_obj` aborts on one, src/pft.c:111), that no node has the id 0xFFFFFFFF, and that at most 2048 nodes are known (the size of the arrays in `dijkstra`).
- Daemons.Daemon.AddFileRequest: requires a name that is not empty, for the same reason; a request whose name begins with a NUL byte would abort the daemon.
- Reliable.ReliableFlooding: is about runs in which no neighbour is marked down and no SEQ overtakes; `Recovery` says what happens with SEQs.
- Convergence.SettledLookup: also asks that no LSA has expired in the final state, since an expired one removes its node's links.
- Daemons.Daemon.AddLocalFile: does not follow what an overrun does to the memory behind the buffer; nothing changes in the model, and `EventLoops.Run` stops there.
- EventLoops.Run: asks of its inputs what `ProcessRtInf` and `AddFileRequest` ask; in which order inputs come, and whether the list of files can be written, is given with them. It says of a lookup's reply what it can be in that state, whatever the order of the ids in the tree.
- HashTables.HashTable.Insert: the chains are sequences in an array of buckets instead of linked entries.
- Relaying.RelayExact: is about names in printable ASCII, which is all that the libraries treat alike; percent-encoding and the end of a path follow RFC 3986, sections 2.1 and 3.3, and the set of characters sent as they are, and the stripping of spaces at the end, are those of the URL opener in starter/webserver.py, whose source is not part of this model.
- DynArrays.DynArray.Resize: counts capacity in elements, as the fields do; `DynArrays.WithinExact` says when the block has room for them, for additions and removals, and not for the scratch array of a query, whose length is also set back (src/pft.c:164, src/pft.c:196).
- Restarts inside a network run: runs start every node once; restarts are treated for one origin and its peers in `Recovery`.
- Widths: sequence numbers are unbounded and do not wrap; the ttl byte wraps as in the source; routing costs and next hops fit their types.
- The entry counter of the pending table, which the source lets drift (src/client_info.c:404) and never reads.
- Memory allocation failures, freeing (apart from the blocks of the request parser) and structure layout.
- Name lengths: requests carry at most nine characters of name (src/parser.h:6), which is what the buffers hold; the model puts no limit on names in advertisements, where the source asserts one (src/pft.c:76).
- `errno` left over from earlier calls in `str_to_num`; a word of at most nine characters cannot overflow.
- Sockets, `select`, descriptor sets and their flags, `is_timeout` and `get_next_fd`: events and a wire stand for them.
- Loading of the neighbour and file lists and of the arguments (src/config.c, src/routed.c:60-125): the tables are given, with every neighbour up.
- `HT_REMOVE_ALL`, which has no caller, debug printing, the text of responses, the HTML pages and uploads of the web server.
