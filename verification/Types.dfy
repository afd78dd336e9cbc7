/** The records that the routing daemon keeps and sends (src/lsa.h, src/config.h). */
module Types {
  const LSA_MAX_TTL := 32
  const PEND_ACK_BUCKET_SIZE := 50
  /** The node id that means "no next hop" (src/dijkstra.h:10, stored in a uint32_t). */
  const NO_HOP := 0xFFFF_FFFF

  datatype Addr = Addr(ip: string, port: int)

  /** What an advertisement announces: link entries and object entries. */
  datatype Body = Body(links: seq<nat>, objs: seq<string>)

  /** One entry of the LSA table; the table key is the originating node. */
  datatype Lsa = Lsa(valid: bool, timeLeft: int, ttl: int, seqNum: nat, body: Body)

  /** One line of the neighbour file; the table key is the node id. */
  datatype Neighbour = Neighbour(ip: string, rdPort: int, localPort: int, serverPort: int, valid: bool)
  {
    function Address(): Addr { Addr(ip, rdPort) }
  }

  datatype Packet =
    | Ad(ttl: int, origin: nat, seqNum: nat, body: Body)
    | Ack(origin: nat, seqNum: nat)
    | Seq(origin: nat, seqNum: nat)

  /** An element of the send list or of the pending-ACK table. */
  datatype Pending = Pending(dst: Addr, timeLeft: int, packet: Packet)

  datatype Timers = Timers(lsa: int, nb: int, retran: int, adv: int)
}
