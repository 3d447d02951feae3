# A verified model of the network stack

The repository implements, in C, the pieces of a small network: a spanning-tree switch (`04_stp`), an IP
router with ARP (`06-router`), a link-state routing daemon (`07-mospf`), a NAT gateway (`08-nat`) and a TCP
stack (`12-tcp_stack`). This project models the five protocol cores in Dafny and proves what they are for.
`dafny verify dfyconfig.toml` checks everything.

Each core has the same layers:

- a value layer: datatypes for the state and one function per handler, with the branches, constants and
  integer widths of the C code (`MachineInts.dfy` writes out the 16- and 32-bit conversions);
- a device layer: a class with the fields and arrays of the C structures, whose methods run the C loops in
  place and are proved equal to the functions;
- a system layer: a state machine whose steps are the handlers, run under a lock each, over a medium that
  may lose, duplicate and reorder, or over an arbitrary interleaving of threads. The theorems speak about
  every state of every run.

| Core | Files | Main results |
|---|---|---|
| Spanning tree | `Stp*.dfy` | no counting to infinity, loop freedom at every instant, stable means correct and final, finitely many acceptances, hellos exactly when due; when a network comes to rest, whether it is right, and a run that comes to rest wrong |
| Link-state routing | `Mospf*.dfy` | database agreement, flooding completeness with its exact size limit, the exact life of entries and neighbours, breadth-first search over arrays, hop-by-hop delivery by longest prefix match, and all of it composed |
| TCP | `Tcp*.dfy` | ring buffer as bounded FIFO, identity of streams of any length from several writes through reassembly to reading, acknowledgements, serial order, the wake-up that the receive path can lose |
| NAT | `Nat*.dfy` | port conservation with its exact condition, the exact life of a mapping, round trip over interleaved runs from inside and from outside, exhaustion |
| ARP, accept, checksum | `Arp*.dfy`, `Accept*.dfy`, `Checksum.dfy` | packet conservation, bounded waiting with its exact bound, requests asked exactly as often as they count tries, no lost wake-up with its exact condition, both checksum routines against one definition |

## Where the code and its descriptions differ

The model follows the code.

- `DP_all_priority_cmp` is not the designated-port rule of section 8.6 of IEEE 802.1D-1998: a port is promoted
  only on an exact tie with the root port (`StpSwitch.RefreshIsExact`), and on point-to-point links that
  never happens (`StpNetwork.PortsNeverTie`, `StpProgress.NeverPromoted`). So the network can come to rest with the
  wrong tree: on the line of switches 2 - 4 - 5 - 1 one hello of switch 2, with every config delivered once and in
  order, leaves 2 and 4 with root 2 for ever (`StpStuckLine.LineNeverStabilizes`). Which states are at rest
  for good is exactly `StpWires.FrozenIffLiveLinksStable`; which of them are right is what the omitted test would tell
  (`StpWires.StableIffDesignatedTest`).
- `08-nat/include/nat.h` calls `update_time` the time of the latest packet; the code sets it once, when the mapping
  is made. A mapping is swept when more than 60 seconds have passed since then, however busy it is
  (`NatLife.SweepEndsMapping`), and an active flow then loses its replies (`NatLife.ActiveFlowIsSwept`).
  `nat.c:181` says sequence ends are computed with the segment length; the code uses the bare sequence number.
- A full port pool is not an error in `alloc_port`: it returns 0, and flows then share external port 0
  (`NatExhaustion.ExhaustionMisdelivers`).
- `arpcache_append_packet` is described as sending a request only for a new entry; the code sends one every time.
  A resend needs more than one second since the last append, and does not renew the send time. A sender that missed
  just before the reply arrived still pends its packet, which can be dropped as unreachable while the cache knows the
  address (`ArpLate.LatePacketIsDropped`).
- Flooding is complete for up to 256 routers, not for any number: the TTL of 255 stops an LSU one router short on
  a line of 257 (`MospfTtlLimit.CompleteIffAtMost256`). A router's 65537th LSU carries number 0 again and is refused
  while the entry with number 65535 lives: harmless as long as it says nothing new (`MospfFlooding.FloodingComplete`),
  and lost otherwise (`MospfWrap.WrappedLsuIsLost`).
- A segment that was buffered twice stays in the out-of-order list, and is delivered again when `rcv_nxt` lands on
  its sequence number 2^32 bytes later (`TcpStale.StaleIsDeliveredAgain`). As long as segments arrive less than 2^31
  bytes from what is expected, nothing else can spoil the stream (`TcpStale.PrefixIffNoLanding`).
- `handle_rcv_data` calls `wake_up` only after an unlocked look at the sleep flag, so a reader that has just found
  the ring empty can go to sleep with data available (`TcpReadWait.WakeUpCanBeLost`). The accept path wakes
  unconditionally and is safe for one accepting thread, and for one only (`AcceptTheorems.NeverLostIffOneAcceptor`).
- `tcp_sock_accept` tests the queue and pops it without a lock. With two accepting threads the second can pop an empty
  queue (`AcceptTheorems.NeverBrokenIffOneAcceptor`).
- `accept_backlog` is changed without a lock; when a push and a pop overlap it drifts from the length of the queue
  (`AcceptCounter.CounterDrifts`).

## Model

| member | source | states |
|---|---|---|
| StpVector.AcceptanceIsStrictImprovement | 04_stp/stp.c:145-181 | a config is accepted exactly when the vector it installs beats the stored one in the port order, for costs below 2^31 (one comparison is unsigned, the other signed) |
| StpSwitch.BestPortIsFirstMinimum | 04_stp/stp.c:183-214 | the scan finds the first non-designated port with a minimal vector, and none exactly when all ports are designated |
| StpSwitch.RefreshIsExact | 04_stp/stp.c:216-248 | the whole in-place loop: designated ports take the switch's pair, and a non-designated port is promoted exactly when it is not the root port and ties with its vector before the loop in all four fields |
| StpSwitch.RefreshIsPointwise | 04_stp/stp.c:232-248 | without a tie the in-place loop gives each designated port the switch's pair and leaves all others alone |
| StpSwitch.AcceptIsExact | 04_stp/stp.c:249-262 | what an accepted config makes of any switch: the port takes it, the switch follows the first minimal port that is not designated, one further from that root, or is its own root with cost 0 when there is none; the timer runs on only at a root |
| StpSwitch.SendConfigCoversDesignated | 04_stp/stp.c:68-106 | the current config leaves on exactly the designated ports, and on none when the switch is neither root nor has a root port |
| StpDevice.Device.constructor | 04_stp/stp.c:314-360 | the initial switch: its own root, all ports designated, hello timer running |
| StpDevice.Device.UpdateStpStatus | 04_stp/stp.c:183-214 | the index loop computes root port, root and cost as the specification function does |
| StpDevice.Device.CompareWithAll | 04_stp/stp.c:216-226 | true exactly when no non-designated port has a strictly better vector |
| StpDevice.Device.UpdatePorts | 04_stp/stp.c:232-248 | the port array after the loop, each iteration seeing the earlier ones |
| StpDevice.Device.SendConfigs | 04_stp/stp.c:96-106 | all configs the switch sends, in port order |
| StpDevice.Device.HandleConfigPacket | 04_stp/stp.c:249-265 | new state and output of the handler on an accepted and on a refused config |
| StpDevice.Device.RunTimer | 04_stp/stp_timer.c:36-70 | 512 ticks or more after an active timer was started the configs go out and it is restarted; at any other time nothing happens |
| StpNetwork.PortsNeverTie | 04_stp/stp.c:216-248 | on point-to-point links two ports never hold the same neighbour vector |
| StpNetwork.WitnessExtends | 04_stp/stp.c:183-214 | hearing (r, c) over a link extends the sender's simple path to one of c + 1 links that does not meet the hearer |
| StpNetwork.AcceptImprovesPair | 04_stp/stp.c:183-214 | accepting a config never makes the switch's own (root, cost) worse |
| StpNetwork.AcceptKeepsLocal | 04_stp/stp.c:249-262 | what one acceptance keeps: designated ports carry the switch's pair, others a config that was sent to them |
| StpInvariant.EventHolds | 04_stp/stp.c:249-265 | every delivery and timer tick keeps the global invariant and makes no pair worse |
| StpInvariant.RunHolds | 04_stp/stp.c:249-265 | the invariant in every state of every run with loss, duplication and reordering |
| StpTheorems.NoCountingToInfinity | 04_stp/stp.c:183-214 | every believed (root, cost) is witnessed by a simple path of that many links, switches along it believing no worse; cost below the number of switches and not below the true distance, root not below the smallest id |
| StpTheorems.ParentIsCloser | 04_stp/stp.c:183-214 | the switch behind a root port holds a pair at most (root, cost - 1) |
| StpTheorems.RootHasNoRootPort | 04_stp/stp.c:202-213 | a switch is root exactly when it has no root port, exactly when its cost is 0 |
| StpTheorems.RootPortsNeverCycle | 04_stp/stp.c:183-265 | in no state of any run do root ports form a cycle |
| StpTheorems.BeliefsOnlyImprove | 04_stp/stp.c:249-265 | pairs never get worse, a switch that stops being root never is root again, the hello timer is active exactly while it is |
| StpTheorems.StableIsCorrect | 04_stp/stp.c:145-248 | in a connected network a stable state has the smallest id as root everywhere, exact hop distances as costs, and root ports one hop closer |
| StpConvergence.OldConfigsAreRefused | 04_stp/stp.c:145-157 | in a stable state no config ever sent would be accepted where it is going |
| StpConvergence.StableIsFinal | 04_stp/stp.c:249-265 | from a stable state on, nothing but timers ever changes and nothing is accepted |
| StpConvergence.CanOffer | 04_stp/stp.c:96-115 | on a medium that may repeat what it has delivered, the current config of a switch can be brought onto any of its links: by the timer, because it was sent, or as the answer to a repetition |
| StpConvergence.CanAlwaysStabilize | 04_stp/stp.c:249-265 | on such a repeating medium every run can be continued to a stable state |
| StpWires.WiresEmbed | 04_stp/stp.c:249-265 | every state reached on wires that keep nothing is one of the network above, so all its state theorems carry over |
| StpHello.TickIsExact | 04_stp/stp_timer.c:47-70 | a tick sends the current config of each designated port on its link and restarts the timer exactly when the timer is active and 512 ticks old, leaves the switch and the wires alone otherwise, and never touches another switch |
| StpHello.TickOnWires | 04_stp/stp_timer.c:47-70 | on wires that keep nothing, each of these configs goes into flight once, and without a hello nothing changes |
| StpHello.HellosApart | 04_stp/stp_timer.c:47-70 | over all runs two hellos of one switch are at least 512 ticks apart |
| StpHello.FirstHelloWaits | 04_stp/stp_timer.c:36-58 | nor does the first come sooner after the start |
| StpWires.AllHeeded | 04_stp/stp.c:249-265 | without loss, every config ever sent is in flight or would be refused where it was going |
| StpWires.StableIffDesignatedTest | 04_stp/stp.c:216-248 | when a run without loss has settled, the designated-port test the code omits holds exactly when the state is stable and every link has a designated end |
| StpWires.FrozenIffLiveLinksStable | 04_stp/stp.c:249-265 | a settled state can still change exactly when some link with a root at an end, or with something in flight, is not stable |
| StpWires.NeverStableAgain | 04_stp/stp.c:249-265 | a settled state whose live links are stable while another link is not stays wrong for ever |
| StpWires.ComesToRest | 04_stp/stp.c:249-265 | every state can be continued to one that no continuation changes |
| StpStuckLine.LineNeverStabilizes | 04_stp/stp.c:216-265 | the line 2 - 4 - 5 - 1: a run without loss or repetition after which two roots remain, whatever follows |
| StpProgress.RankFollowsPriority | 04_stp/stp.c:160-173 | the four-field order embeds into the natural numbers |
| StpProgress.EventLowersMeasure | 04_stp/stp.c:249-265 | each acceptance strictly lowers the measure, every other event leaves it |
| StpProgress.FinitelyManyAcceptances | 04_stp/stp.c:249-265 | in every run at most ports * n^3 * 2^16 configs are accepted |
| StpProgress.NeverPromoted | 04_stp/stp.c:216-248 | no port is ever designated again, and no port's vector ever gets worse |
| MospfRouter.BroadcastReaches | 07-mospf/mospf_daemon.c:90-107 | a broadcast reaches every neighbour except the given router and nobody else |
| MospfDaemon.Daemon.BroadcastLsu | 07-mospf/mospf_daemon.c:90-107 | the two loops send what the specification function lists |
| MospfDaemon.Daemon.CollectAdvertisements | 07-mospf/mospf_daemon.c:112-140 | the array sized in one loop is filled exactly by the next |
| MospfDaemon.Daemon.SendOwnLsu | 07-mospf/mospf_daemon.c:109-155 | own LSU with the current number and TTL 255; the 16-bit number advances and wraps |
| MospfNode.Node.HandleLsuPacket | 07-mospf/mospf_daemon.c:364-419 | dead, old and new LSUs: database, with an entry of age 0 for an LSU that is stored, forwarded copies, and the routing table computed from the new database exactly when the LSU is stored |
| MospfDaemon.Daemon.HandleHelloPacket | 07-mospf/mospf_daemon.c:209-239 | a known neighbour is refreshed, a new one added and announced |
| MospfDaemon.Daemon.CheckNeighbourList | 07-mospf/mospf_daemon.c:157-185 | silent neighbours go, and an LSU is sent exactly when one did |
| MospfDaemon.Daemon.CheckDatabase | 07-mospf/mospf_daemon.c:187-206 | old entries go, all others age by one |
| MospfLife.AcceptedIsYoung | 07-mospf/mospf_daemon.c:379-408 | after an accepted LSU its origin has one entry, with the number and content of the LSU and age 0, however old the entry was before |
| MospfLife.EntryLives | 07-mospf/mospf_daemon.c:187-206 | over runs with aging, loss and duplication: an entry is there exactly when at most 40 ticks have passed since the last LSU accepted from its origin, and it is the only one, carries that LSU and counts those ticks |
| MospfLife.NoEntryUnheard | 07-mospf/mospf_daemon.c:379-408 | without an accepted LSU of an origin there is no entry for it |
| MospfHello.HelloIsExact | 07-mospf/mospf_daemon.c:209-239 | a hello makes a known neighbour young and changes nothing else, and adds an unknown one with the address and mask of the hello |
| MospfHello.NeighbourLives | 07-mospf/mospf_daemon.c:157-185 | over all runs a neighbour is known exactly while at most 15 ticks have passed since its last hello on the interface |
| MospfHello.NeighbourIsIntroduced | 07-mospf/mospf_daemon.c:229-235 | over all runs the address and mask of a neighbour are those of some hello from it, or were there at the start |
| MospfHello.AnnouncesExactly | 07-mospf/mospf_daemon.c:109-239 | a router advertises its neighbours exactly when it originates an LSU, hears a neighbour for the first time or drops a silent one |
| MospfHello.AnnouncementGoesOut | 07-mospf/mospf_daemon.c:90-155 | the announcement goes into flight to every neighbour whose id is not 0, with the old number, TTL 255 and the new neighbour lists |
| MospfHello.AdvertisesExactly | 07-mospf/mospf_daemon.c:119-140 | it names, for each interface, every neighbour with its network and mask, or the network of the interface with router id 0 when there is none, and nothing else |
| MospfNetwork.DatabasesAgree | 07-mospf/mospf_daemon.c:364-419 | over every run, entries and LSUs in flight for (origin, seq) carry what the origin recorded; one entry per origin, never the router's own |
| MospfNetwork.EntriesOnlyAdvance | 07-mospf/mospf_daemon.c:379-408 | while an entry lives its number never falls, and the same number means the same content |
| MospfFlooding.AcceptExtendsChain | 07-mospf/mospf_daemon.c:379-418 | a router that accepts an LSU is not on the chain of routers it has passed |
| MospfFlooding.AcceptedAtMostOnce | 07-mospf/mospf_daemon.c:379-392 | a router accepts an (origin, seq) at most once, and only ever newer ones |
| MospfFlooding.TtlNeverSuppresses | 07-mospf/mospf_proto.c:24-30 | with at most 255 routers an accepted LSU always has TTL left to be forwarded |
| MospfFlooding.FloodingComplete | 07-mospf/mospf_daemon.c:364-419 | with at most 256 routers and any number of LSUs, once nothing is in flight every reachable router stores what the origin's newest LSU says, under number min(LSUs sent, 65536) - 1 |
| MospfTtlLimit.CompleteIffAtMost256 | 07-mospf/mospf_daemon.c:364-419 | for any assignment of router ids, flooding is complete on every topology with two-way links exactly for at most 256 routers |
| MospfWrap.NumberIsNewestIff | 07-mospf/mospf_daemon.c:379-388 | with static neighbour lists the stored number is that of the newest LSU exactly for up to 65536 LSUs, or a multiple of 65536 |
| MospfWrap.WrappedNumberIsRefused | 07-mospf/mospf_daemon.c:379-388 | such a run, in which the 65537th LSU is refused although nothing changed |
| MospfWrap.WrappedLsuIsLost | 07-mospf/mospf_daemon.c:379-388 | when a neighbour list changes at that point, the new content is refused and lost |
| MospfGraph.SearchIsComplete | 07-mospf/mospf_daemon.c:343-359 | an exhausted search has visited exactly the reachable nodes, each at its minimal distance from its nearest seed |
| MospfRoutes.BuildGraph | 07-mospf/mospf_daemon.c:283-319 | the node and graph arrays hold the graph of the database |
| MospfRoutes.SeedQueue | 07-mospf/mospf_daemon.c:322-341 | queue, visit marks, gateways and interfaces after the router's own neighbours are entered |
| MospfRoutes.RoutingTable.ClearGatewayRoutes | 07-mospf/mospf_daemon.c:276-281 | routes with gateway 0 survive in order, all others go |
| MospfRoutes.RoutingTable.VisitNode | 07-mospf/mospf_daemon.c:351-357 | an unseen node inherits gateway and interface, gets one route, is marked and queued, within the arrays |
| MospfRoutes.RoutingTable.SearchStep | 07-mospf/mospf_daemon.c:343-359 | one turn of the loop expands the node at the head of the queue |
| MospfRoutes.RoutingTable.Search | 07-mospf/mospf_daemon.c:343-359 | the loop terminates with the queue exhausted |
| MospfRoutes.RoutingTable.Update | 07-mospf/mospf_daemon.c:265-361 | surviving direct routes, then exactly one route per reachable node that is no neighbour, through a neighbour on a path with the fewest hops |
| MospfTable.TableIsFresh | 07-mospf/mospf_daemon.c:265-361 | however often the table has been computed, it holds exactly the routes with gateway 0 that it started with, in order, and then the routes of the latest database: no direct route is ever lost and no older computed one is left, as long as no neighbour has address 0 |
| MospfTopology.GraphMirrors | 07-mospf/mospf_daemon.c:283-341 | the graph and seeds at each router mirror the topology when databases agree |
| MospfTopology.StubEdgeHolds | 07-mospf/mospf_daemon.c:308-315 | only the advertising router's row leads to a stub network, and to a leaf |
| MospfDelivery.NextHopIsCloser | 07-mospf/mospf_daemon.c:265-361 | every other router has exactly one route for the stub network, with its mask, through a router exactly one hop closer |
| MospfDelivery.NoRouteAtStub | 07-mospf/mospf_daemon.c:265-361 | the stub's own router computes no gateway route for it |
| MospfDelivery.DeliveredInShortestHops | 07-mospf/mospf_daemon.c:265-361 | following the route for the stub at each router reaches the stub's router in exactly the distance, without loop and never stuck |
| MospfForwarding.NodeNetIsLastNaming | 07-mospf/mospf_daemon.c:293-318 | the network of a router's node is the last one under which any advertisement names the router |
| MospfForwarding.NetworkHasRouteIff | 07-mospf/mospf_daemon.c:343-359 | a network gets a gateway route exactly when a reachable node that is no neighbour carries it |
| AddressMask.InNetIsPrefix | 06-router/ip_base.c:35 | an address matches a route exactly when it has the network's bits where the mask has ones |
| MospfForwarding.LongestPrefixIsLongest | 06-router/ip_base.c:30-41 | the scan returns the first matching route with the largest mask, none exactly when none matches |
| MospfForwarding.LongestPrefixMatch | 06-router/ip_base.c:30-41 | the loop over the routing table |
| MospfForwarding.PrefixDelivers | 06-router/ip_base.c:52-74 | packets for an address of the stub, forwarded by longest prefix match over direct and gateway routes, arrive after exactly the distance |
| MospfConverged.QuietMeansAgreed | 07-mospf/mospf_daemon.c:364-419 | when every router has spoken and nothing is in flight, all databases agree with the topology |
| MospfConverged.DeliveredAfterFlooding | 07-mospf/mospf_daemon.c:265-419 | flooding composed with routing: after any such run the stub's routes lead along shortest paths |
| MospfForwarding.ForwardedAfterFlooding | 07-mospf/mospf_daemon.c:265-419 | the same for packets forwarded by longest prefix match |
| TcpSerial.SerialOrderIsStreamOrder | 12-tcp_stack/include/tcp.h:10-13 | the 32-bit comparisons agree with stream order for positions less than 2^31 apart, across wrap-around (section 3.3 of RFC 793) |
| TcpSerial.SerialOrderFailsAtHalf | 12-tcp_stack/include/tcp.h:10-13 | at a distance of exactly 2^31 each number is less than the other |
| TcpRing.WriteAppends | 12-tcp_stack/include/ring_buffer.h:77-92 | a write appends to the queued bytes, wrapping or not |
| TcpRing.ReadTakes | 12-tcp_stack/include/ring_buffer.h:56-74 | a read takes the oldest bytes, as many as asked for and available |
| TcpRing.EmptyAndFull | 12-tcp_stack/include/ring_buffer.h:31-50 | empty and full are told apart by the queued bytes |
| TcpRing.RingIsFifo | 12-tcp_stack/include/ring_buffer.h:31-92 | over every sequence of operations written equals read followed by queued, and used plus free is constant |
| TcpRing.RingBuffer.constructor | 12-tcp_stack/include/ring_buffer.h:15-24 | an empty buffer with one byte more than its capacity |
| TcpRing.RingBuffer.WriteBuffer | 12-tcp_stack/include/ring_buffer.h:77-92 | the copies in place append the data |
| TcpRing.RingBuffer.ReadBuffer | 12-tcp_stack/include/ring_buffer.h:56-74 | bytes and length returned, and what is left |
| TcpStream.CutTiles | 12-tcp_stack/tcp_sock.c:398-421 | the payloads tile the buffer without gap or overlap, none is longer than 1460 bytes and all but the last are that long |
| TcpStream.Sender.WriteAll | 12-tcp_stack/tcp_sock.c:398-421 | the loop sends exactly the segments of the cut, although its offset is a 32-bit difference, and leaves snd_nxt behind the buffer |
| TcpStream.Socket.HandleRcvData | 12-tcp_stack/tcp_sock.c:423-483 | the three cases for any segment, empty ones included unless they come to be written; the drain loop over the out-of-order list terminates and equals the drain function; an ACK with the new rcv_nxt goes out unless the segment was buffered |
| TcpStream.Socket.ReadData | 12-tcp_stack/tcp_sock.c:385-396 | as many bytes as asked for and ready, from the head of what was ready |
| TcpEndToEnd.ReceiveConserves | 12-tcp_stack/tcp_sock.c:423-483 | every arrived piece is delivered in its place, buffered, or was behind rcv_nxt; nothing buffered is next |
| TcpEndToEnd.WritesAreOneStream | 12-tcp_stack/tcp_sock.c:398-421 | the segments of consecutive writes are those of one stream, each from where the one before left snd_nxt |
| TcpEndToEnd.ReceiveTied | 12-tcp_stack/tcp_sock.c:423-483 | the receiver on wrapped numbers does what the one on stream positions does, for arrivals within 2^31 of rcv_nxt that make it land on nothing that belongs elsewhere |
| TcpEndToEnd.ArrivalsAreHandled | 12-tcp_stack/tcp_sock.c:423-483 | every arrival of a run meets what Socket.HandleRcvData requires: room in the ring and no empty segment to write |
| TcpEndToEnd.AckIsExact | 12-tcp_stack/tcp_sock.c:425-479 | in stream positions: an arrival is acknowledged exactly when it does not start beyond what is expected, with the number expected after it |
| TcpEndToEnd.ArrivalsAreAcknowledged | 12-tcp_stack/tcp_sock.c:425-479 | over runs, every arrival that delivers bytes or lies behind rcv_nxt is acknowledged, one ahead of it is not, and the number acknowledges exactly the bytes delivered so far |
| TcpStale.PrefixIffNoLanding | 12-tcp_stack/tcp_sock.c:437-450 | the events of a run whose arrivals are within 2^31 deliver a prefix of the stream, whatever its bytes, exactly when rcv_nxt never lands on the sequence number of a buffered segment that belongs elsewhere |
| TcpStale.StaleIsDeliveredAgain | 12-tcp_stack/tcp_sock.c:437-450 | a run from the start in which it does: a segment arrives twice ahead of its time, and 2^32 bytes later the copy is delivered |
| TcpEndToEnd.Reassembly | 12-tcp_stack/tcp_sock.c:423-483 | safety and maximality on a stream of any length, for any order of arrivals within 2^31 of rcv_nxt and with duplicates, interleaved with reads, as long as nothing lands |
| TcpEndToEnd.StreamIdentity | 12-tcp_stack/tcp_sock.c:385-483 | any number of writes and any total length: once every segment has arrived at least once, bytes read and readable are exactly those written |
| TcpEndToEnd.ShortStreamIdentity | 12-tcp_stack/tcp_sock.c:385-483 | below 2^31 bytes no condition on the arrivals is needed |
| TcpReadWait.LostOnlyIfMissed | 12-tcp_stack/tcp_sock.c:459-462 | a reader is left asleep with data available only in a run where the flag was read in the window before its sleep |
| TcpReadWait.MissedMeansLost | 12-tcp_stack/tcp_sock.c:385-396 | such a reading of the flag loses the wake-up as soon as the reader goes on, and no other does |
| TcpReadWait.WakeUpCanBeLost | 12-tcp_stack/tcp_sock.c:459-462 | a run of five steps in which it happens |
| TcpReadWait.SleepsUnlessWoken | 12-tcp_stack/include/synch_wait.h:40-72 | over runs, a reader that comes to sleep_on returns 0 exactly after wait_exit, and otherwise blocks exactly when no wake_up, its own at the end of the last read included, has come since it was last there |
| TcpReadWait.CallEnds | 12-tcp_stack/tcp_sock.c:385-396 | a call of tcp_sock_read ends exactly with its own wake_up after the read, or with 0 after wait_exit |
| NatTable.FreePort | 08-nat/nat.c:41-52 | the least free port of the pool, or 0 when all are marked |
| NatTheorems.AllocatesLeastFree | 08-nat/nat.c:41-52 | alloc_port marks and returns the least free port, and returns 0 exactly when the pool is full |
| NatDevice.Translator.constructor | 08-nat/nat.c:306-323 | empty lists and an unmarked pool |
| NatDevice.Translator.AllocatePort | 08-nat/nat.c:41-52 | the scan in place equals the allocation function |
| NatDevice.Translator.Incoming | 08-nat/nat.c:59-119 | list, rule and drop cases of a packet from outside: new table and rewritten packet |
| NatDevice.Translator.Outgoing | 08-nat/nat.c:120-151 | known and new flows of a packet from inside |
| NatDevice.Translator.SweepTable | 08-nat/nat.c:189-216 | one pass of the sweeper over all lists and the port marks |
| NatTheorems.PortsConserved | 08-nat/nat.c:41-216 | in every state of every run a pool port is marked exactly when one mapping uses it, no other port ever is |
| NatTheorems.DnatInsidePoolBreaks | 08-nat/nat.c:82-105 | one packet to a DNAT endpoint inside the pool breaks that |
| NatTheorems.ConservationIffDnatOutsidePool | 08-nat/nat.c:82-142 | conservation over all runs holds exactly for configurations whose DNAT ports lie outside the pool |
| NatRoundTrip.SweepFilters | 08-nat/nat.c:197-210 | a sweep removes exactly the expired mappings and keeps the order of the others |
| NatRoundTrip.UniqueAlways | 08-nat/nat.c:72-142 | two mappings of one list never share an external endpoint with a port other than 0 |
| NatRoundTrip.ExpiredIsForgotten | 08-nat/nat.c:202-208 | after a sweep the endpoint of a mapping is unknown exactly when the mapping had expired |
| NatLife.MappingLives | 08-nat/nat.c:95-151 | while it is spared a mapping keeps its endpoints and the time of its creation, whatever packets it carries, and its statistics are those of the packets seen |
| NatLife.SweepEndsMapping | 08-nat/nat.c:182-210 | a sweep leaves a mapping exactly when at most 60 seconds have passed since its creation and the packets seen have not finished the flow |
| NatLife.MappingHasBirth | 08-nat/nat.c:72-142 | every mapping with a port of its own was made by some event and has been spared since |
| NatLife.RoundTrip | 08-nat/nat.c:56-156 | from an outgoing packet until such a sweep, replies are rewritten back to the internal endpoint and later packets leave as the same external one, through all interleavings, collisions and sweeps (section 2.2 of RFC 3022) |
| NatLife.OutgoingHasBirth | 08-nat/nat.c:120-151 | every outgoing packet that got a port of its own has such a mapping behind it |
| NatDnat.KnownIsForwarded | 08-nat/nat.c:74-113 | a packet to a known external endpoint goes to the internal endpoint of its first mapping |
| NatDnat.UnknownFollowsRules | 08-nat/nat.c:82-113 | any other goes to the internal endpoint of the first rule for its destination, and is dropped exactly when there is none |
| NatDnat.DnatReaches | 08-nat/nat.c:59-119 | over runs, from the first packet to a configured endpoint until a sweep ends its mapping, every packet of the list to that endpoint reaches the server |
| NatDnat.AnswersLeaveIff | 08-nat/nat.c:120-145 | the answers of the server leave as the configured endpoint exactly as long as no older mapping of the list belongs to it |
| NatDnat.DnatAnswers | 08-nat/nat.c:120-145 | which holds until the sweep when the server had no mapping in the list before |
| NatDnat.FinishedMeans | 08-nat/nat.c:180-187 | a flow counts as finished exactly when some packet from inside was a bare FIN, the latest from outside was one, and every sequence number of each side is acknowledged by a bare ACK of the other |
| NatDnat.SweepEndsFlow | 08-nat/nat.c:198-210 | a sweep leaves a mapping exactly when at most 60 seconds have passed since its creation and the packets have not finished the flow in that sense |
| NatLife.ActiveFlowIsSwept | 08-nat/nat.c:202-208 | a run in which a flow active one second before is swept and its reply dropped |
| NatExhaustion.NewMappingPort | 08-nat/nat.c:130-142 | a new mapping gets port 0 exactly when every port of the pool is in use |
| NatExhaustion.ReplyReachesIffFirst | 08-nat/nat.c:72-113 | in every state of every run a reply to a mapping's external endpoint reaches its internal one exactly when no earlier mapping of the list has that external endpoint |
| NatExhaustion.ExhaustionMisdelivers | 08-nat/nat.c:130-142 | a run of one flow for each port of the pool and two more: the reply to the last goes to the one before |
| NatExhaustion.FirstOnPortZeroIsServed | 08-nat/nat.c:130-142 | one flow fewer, and the single flow on port 0 gets its replies |
| ArpTable.Lookup | 06-router/arpcache.c:54-67 | the address of a valid entry, none exactly when there is none |
| ArpTable.Slot | 06-router/arpcache.c:115-125 | the slot to overwrite: the first valid entry for the address, else the last free one, else the random one |
| ArpCache.ArpCache.Find | 06-router/arpcache.c:54-67 | the scan over the array equals the lookup |
| ArpCache.ArpCache.Append | 06-router/arpcache.c:76-105 | joins or makes the request, counts the try, renews the send time; the request always goes out |
| ArpCache.ArpCache.SendByArp | 06-router/arp.c:84-102 | hit: the frame is sent; miss: the packet is pended |
| ArpCache.ArpCache.Insert | 06-router/arpcache.c:110-149 | entry array, remaining requests and frames sent |
| ArpCache.ArpCache.Sweep | 06-router/arpcache.c:160-199 | entries invalidated, requests dropped or asked again |
| ArpTheorems.PacketsConserved | 06-router/arpcache.c:76-199 | over every run packets handed over are those sent, dropped, pending or held by a sender between two locks |
| ArpTheorems.ExactlyOnePlace | 06-router/arp.c:84-102 | a packet handed over once is in exactly one of these places |
| ArpTheorems.AnswerSeen | 06-router/arpcache.c:131-146 | an inserted mapping empties all requests for its address and touches no other |
| ArpTheorems.AnswerDelivers | 06-router/arpcache.c:131-146 | it sends exactly their packets, each on its request's interface to the new address |
| ArpOrder.PendingInOrder | 06-router/arpcache.c:84-101 | over runs, a request holds the packets added since it was made, in the order in which senders added them |
| ArpOrder.AnsweredInOrder | 06-router/arpcache.c:131-146 | first in, first out: when the address is learnt these packets leave on the request's interface, to that address, in the same order |
| ArpTheorems.SweepSeen | 06-router/arpcache.c:171-195 | what a sweep does to the request of each interface and address |
| ArpAsk.SweepAsks | 06-router/arpcache.c:171-195 | a sweep sends one ARP request for an interface and address exactly when their pending request has fewer than five tries and is more than a second old, and none otherwise |
| ArpAsk.AskedAsOftenAsTried | 06-router/arpcache.c:76-195 | over runs, since its pending request was made an address has been asked for exactly as often as the request counts tries |
| ArpAsk.GivenUpAfterFive | 06-router/arpcache.c:172-194 | a request that is given up has been asked at least five times, exactly five when nothing joined it, and not by the sweep that drops it |
| ArpAsk.EntryLives | 06-router/arpcache.c:110-170 | over runs, an address learnt, not learnt again and not displaced is found with its link address exactly until a sweep comes more than 15 seconds later |
| ArpTheorems.InsertedIsFound | 06-router/arpcache.c:110-129 | a new mapping is found at once; another valid one is displaced only from a full cache that does not know the address |
| ArpTheorems.InvariantHolds | 06-router/arpcache.c:76-199 | at most one request per interface and address and one valid entry per address, in every state of every run |
| ArpTheorems.PatienceRunsOut | 06-router/arpcache.c:172-194 | a request present throughout sees at most nine sweeps, whatever is appended to it |
| ArpTheorems.UnansweredIsDropped | 06-router/arpcache.c:172-190 | an unanswered packet is dropped by the tenth sweep |
| ArpTheorems.NineSweepsCanPass | 06-router/arpcache.c:102-103 | the bound is exact: appends can make it survive nine |
| ArpLate.CoexistOnlyByLateAppend | 06-router/arp.c:90-101 | a request and a valid entry for one address come together exactly when a sender that had missed appends after the address was learnt |
| ArpLate.HeldHasMissed | 06-router/arp.c:90-101 | such a sender looked the address up before it was known |
| ArpLate.LatePacketIsDropped | 06-router/arpcache.c:172-190 | a run in which its packet is dropped as unreachable while the cache knows the address |
| AcceptQueue.SeqValidIsWindowTest | 12-tcp_stack/tcp_in.c:33-45 | the segment check is the window test on stream positions, across wrap-around |
| AcceptServer.RunsGuarantee | 12-tcp_stack/tcp_sock.c:310-357 | what every state of every run guarantees: until a thread pops an empty queue the counter is the queue length within the backlog, each child is on one list in the right state; a single accepting thread never pops an empty queue and never waits unheard |
| AcceptServer.Server.constructor | 12-tcp_stack/tcp_sock.c:297-308 | a listening socket and its threads, in the guaranteed state |
| AcceptServer.Server.ReceiveSyn | 12-tcp_stack/tcp_in.c:65-94 | a SYN, and nothing else, makes one child and is answered with SYN and ACK: the child's initial number, acknowledging the end of the SYN; the guarantee stays |
| AcceptServer.Server.ReceiveAck | 12-tcp_stack/tcp_in.c:95-124 | a segment outside the window or not a bare ACK is ignored, and only those; a connection is completed only with room in the queue and refused only without; a refused one is reset; the guarantee stays |
| AcceptServer.Server.PushChild | 12-tcp_stack/tcp_sock.c:322-329 | the completed connection is the last of the queue and a wake-up is owed |
| AcceptServer.Server.WakeAcceptor | 12-tcp_stack/include/synch_wait.h:57-72 | a single thread that waits with the queue not empty is freed |
| AcceptServer.Server.ShutDown | 12-tcp_stack/include/synch_wait.h:26-37 | a single thread no longer waits |
| AcceptServer.Server.EnterSleep | 12-tcp_stack/include/synch_wait.h:40-54 | the thread blocks exactly when neither notified nor dead, and a single one only while nothing is queued or a wake-up is owed |
| AcceptServer.Server.ResumeAccept | 12-tcp_stack/include/synch_wait.h:46-54 | after the wait, signalled or not, the thread looks at the queue again; the guarantee stays |
| AcceptServer.Server.LookAtQueue | 12-tcp_stack/tcp_sock.c:347-350 | an empty queue leads to sleep_on, any other to the pop |
| AcceptServer.Server.PopChild | 12-tcp_stack/tcp_sock.c:331-357 | the head of the queue is returned, established, and accepted followed by the queue stays what it was; an empty queue, which only a thread among several can meet, leaves the counter at -1 and the server broken |
| AcceptHandshake.ChildrenAreExplained | 12-tcp_stack/tcp_in.c:65-124 | over runs, every child goes back to one SYN, whose addresses it has turned round; its next number is one past its initial one, its window 65535, and what it expects follows that SYN, or the ACK inside the window that completed or refused it |
| AcceptTheorems.QueueIsSound | 12-tcp_stack/tcp_sock.c:310-340 | when queue and counter change in one step: with any number of accepting threads, until one pops an empty queue, accept_backlog is the queue length and never exceeds the backlog, and each child is on exactly one list in the state that belongs to it; one thread alone never does |
| AcceptTheorems.AcceptedInOrder | 12-tcp_stack/tcp_sock.c:322-357 | connections are accepted in the order in which they were completed |
| AcceptTheorems.NoLostWakeUp | 12-tcp_stack/include/synch_wait.h:40-72 | a thread that waits with the queue not empty is owed a wake-up, and that one signals it, also under spurious wake-ups and wait_exit |
| AcceptTheorems.AcceptorProgresses | 12-tcp_stack/tcp_sock.c:343-357 | with the queue not empty and the packet thread idle, at most three own steps lead to the head of the queue |
| AcceptTheorems.TwoAcceptorsLose | 12-tcp_stack/include/synch_wait.h:45-49 | with two or more accepting threads a wake-up can be lost |
| AcceptTheorems.NeverLostIffOneAcceptor | 12-tcp_stack/include/synch_wait.h:40-72 | no run loses a wake-up exactly when at most one thread accepts |
| AcceptTheorems.TwoAcceptorsBreak | 12-tcp_stack/tcp_sock.c:343-357 | two threads see one queued connection, and the second takes the list head for a socket with accept_backlog at -1 |
| AcceptTheorems.NeverBrokenIffOneAcceptor | 12-tcp_stack/tcp_sock.c:343-357 | no run pops an empty queue exactly when at most one thread accepts |
| AcceptTheorems.EmptyPopWasOvertaken | 12-tcp_stack/tcp_sock.c:343-357 | a thread about to pop an empty queue has been overtaken: another popped after it saw the queue not empty |
| AcceptCounter.CounterIsSound | 12-tcp_stack/tcp_sock.c:322-340 | with the counter read and stored separately it is still the queue length, as long as no push and pop overlap |
| AcceptCounter.OverlapLoses | 12-tcp_stack/tcp_sock.c:322-340 | a first overlap leaves it one off |
| AcceptCounter.CounterDrifts | 12-tcp_stack/tcp_sock.c:322-340 | a run in which it happens |
| Checksum.SumOddFirst | 06-router/include/checksum.h:10-17 | odd byte first, then the words, adds up to the total of the buffer modulo 2^32 |
| Checksum.SumOddLast | 08-nat/include/checksum.h:10-14 | words first, then the odd byte, adds up to the same |
| Checksum.FoldUntilFits | 08-nat/include/checksum.h:16-17 | the folding loop terminates in the residue of the sum |
| Checksum.FoldTwiceChecksum | 06-router/include/checksum.h:8-23 | the complement of the folded 32-bit sum, for every buffer, length and initial sum |
| Checksum.FoldUntilFitsChecksum | 08-nat/include/checksum.h:8-20 | the same value as the other routine |
| Checksum.FoldedTwice | 06-router/include/checksum.h:19-22 | two folds reach the residue of any 32-bit sum |
| Checksum.OverflowBoundIsExact | 06-router/include/checksum.h:14-17 | from 0 no buffer of that many words can overflow the accumulator exactly for up to 65537 words |
| Checksum.ComplementIsSum | 06-router/include/checksum.h:8-23 | the complement of the value is the word sum modulo 65535, less one per wrap of the accumulator |
| Checksum.ByteOrderIndependent | 06-router/include/checksum.h:8-23 | a host of the other byte order computes the same checksum in its own order (section 1 of RFC 1071) |
| Checksum.StoredChecksumVerifies | 08-nat/include/checksum.h:8-20 | with its checksum stored in a zeroed word a buffer's checksum is 0, for every length and initial sum |

## Assumptions

- Handlers that hold their lock are single steps. Time is a parameter `now`; where a run needs it, it does not go
  backwards, and two sweeps of the ARP cache are at least a second apart (`sleep(1)`).
- Spanning tree: distinct switch ids, fewer than 2^31 switches, at least one and at most 32 ports each, links joining
  two different switches. In `StpNetwork` sent configs are a set that only grows and from which deliveries are taken in
  any order, any number of times or never; in `StpWires` a delivered config is gone.
- Link-state routing: an LSU reaches the neighbour it is addressed to by router id. The flooding theorems need
  no loss, no aging and static neighbour lists. Delivery needs symmetric links, no network equal to a router id or to 0, one address per neighbour on an interface, and no other network that
  holds the address with a mask as large as the stub's. `update_rtable` needs a
  database that fits its fixed arrays (25 nodes, 5 advertisements per router, room in the queue).
- TCP: the read of the ring buffer, which takes no lock, is one step between deliveries, as are linking a connection
  into the accept queue and unlinking one, which take none either (`AcceptCounter` takes the counter apart, not the
  list). Ring space suffices at each delivery and no empty segment comes to be written, as the assertion in
  `write_ring_buffer` demands, and each write is shorter than 2^31 bytes. The signed subtraction in the comparison macros
  wraps.
- Checksum: words are read as little-endian, an odd trailing byte as the low one.

## Left out

- MospfFlooding.FloodingComplete: silent about runs with loss or aging, where an LSU can be missing until the next periodic one.
- MospfRoutes.RoutingTable.Update: fields of `rnode` that the code leaves unset until an advertisement names the node are proved to be set before they are read for a route; overlong databases, which overrun the C arrays, are excluded.
- TcpEndToEnd.StreamIdentity: leaves out an empty write, which sends one empty segment that the receiver's assertion refuses.
- MospfNode.Node.HandleLsuPacket: excludes a database that overruns the C arrays, as the routing table it computes does.
- MospfDelivery.DeliveredInShortestHops: forwards by the route of equal destination; MospfForwarding.PrefixDelivers is about longest prefix match.
- MospfConverged.DeliveredAfterFlooding: likewise; MospfForwarding.ForwardedAfterFlooding is about longest prefix match.
- NatTable.Bucket: nothing is proved of the value of the hash; the theorems hold for any function of the remote endpoint.
- NatDevice.Translator.SweepTable: the clock is read once for a pass, not once for each mapping.
- AcceptTheorems.QueueIsSound: takes a change of the queue and of `accept_backlog` as one step; AcceptCounter says when that is right.
- AcceptServer.Server.PopChild: leaves out a child that was reset while it was queued, which accept would establish again.
- StpConvergence.CanAlwaysStabilize: silent about wires that deliver each config once, where it is false (StpStuckLine).
- MospfForwarding.PrefixDelivers: `longest_prefix_match` is the one of `06-router`; the copy that the routing daemon links is a binary library.
- Raw sockets, packet layouts, byte-order macros, logging, state dumps, configuration parsing, interface discovery, scripts.
- `handle_rcv_data` is not called by the `tcp_process` of this repository, and the helper for the send buffer that it calls is not part of this model; its updates of `snd_una` are left out.
- Retransmission, congestion control, connection teardown, active and simultaneous open, reference counting and hash tables of TCP.
- Spanning tree on shared segments or with links from a switch to itself.
- The TTL of forwarded IP packets and the direction test of the NAT.
- The contents of ICMP errors and of ARP replies; the interface chosen for an ICMP error.
- `tcp_checksum` and the odd-length checksum of the routing daemon.
- Intrusive list pointers and memory management: lists are sequences.
