/** One router with its daemon and its routing table: an LSU that is stored changes both. */
module MospfNode {
  import opened MospfRouter
  import opened MospfDaemon
  import opened MospfGraph
  import opened MospfRoutes

  /** The gateway routes are those the database calls for, after the directly connected ones. */
  ghost predicate TableFollows(before: seq<Route>, after: seq<Route>, db: seq<Entry>, ifaces: seq<Iface>) {
    && |Direct(before)| <= |after| && after[..|Direct(before)|] == Direct(before)
    && exists order, src, dist ::
      RoutesCorrect(Build(db), SeedsOf(db, ifaces), order, src, dist, after[|Direct(before)|..])
  }

  class Node {
    const daemon: Daemon
    const table: RoutingTable

    constructor (daemon: Daemon, table: RoutingTable)
      ensures this.daemon == daemon && this.table == table
    {
      this.daemon, this.table := daemon, table;
    }

    /** handle_mospf_lsu as a whole: a newer LSU is stored, the routing table is computed from the database with it,
        and it is passed on; any other leaves database and table alone. */
    method HandleLsuPacket(lsu: Lsu) returns (out: seq<Send>)
      requires Accepts(daemon.View(), lsu) ==>
        Fits(StoreLsu(daemon.db, lsu)) && QueueFits(StoreLsu(daemon.db, lsu), daemon.ifaces)
      modifies daemon`db, table
      ensures (daemon.View(), out) == HandleLsu(old(daemon.View()), lsu)
      ensures if Accepts(old(daemon.View()), lsu)
              then TableFollows(old(table.rtable), table.rtable, daemon.db, daemon.ifaces)
              else table.rtable == old(table.rtable)
      ensures Accepts(old(daemon.View()), lsu) ==> Entry(lsu.rid, lsu.seqNum, 0, lsu.lsas) in daemon.db
    {
      var stored;
      out, stored := daemon.HandleLsuPacket(lsu);
      if stored {
        ghost var order, src, dist := table.Update(daemon.db, daemon.ifaces);
      }
    }
  }
}
