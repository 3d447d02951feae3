/** Flooding and routing together: once every router has originated an LSU and nothing is in flight, the
    databases agree with the topology, and packets take shortest paths. */
module MospfConverged {
  import opened MospfRouter
  import opened MospfNetwork
  import opened MospfFlooding
  import opened MospfRoutes
  import opened MospfTopology
  import opened MospfDelivery

  ghost predicate Reaches(net: Net, j: nat, i: nat) {
    exists path :: NeighbourPath(net, path) && path[0] == j && path[|path| - 1] == i
  }

  /** Nothing in flight, every router has spoken, and each can be reached from each. */
  ghost predicate Quiet(net: Net) {
    && |net.history| == |net.routers| && net.bag == multiset{}
    && (forall j :: 0 <= j < |net.routers| ==> |net.history[j]| > 0)
    && (forall i, j {:trigger Reaches(net, j, i)} :: 0 <= i < |net.routers| && 0 <= j < |net.routers| ==>
      Reaches(net, j, i))
  }

  lemma QuietStores(states: seq<Net>, events: seq<Event>, t: nat, i: nat, j: nat)
    requires ReliableRun(states, events) && t < |states| && Quiet(states[t])
    requires i < |states[t].routers| && j < |states[t].routers| && i != j
    ensures Stored(states[t].routers, i, j)
  {
    var net := states[t];
    assert Reaches(net, j, i);
    var path :| NeighbourPath(net, path) && path[0] == j && path[|path| - 1] == i;
    FloodingComplete(states, events, t, path);
    HistoryIsCurrent(states, events, t, j);
    var k :| 0 <= k < |net.routers[i].db| && net.routers[i].db[k].rid == net.routers[j].rid
             && net.routers[i].db[k].lsas == Own(net, j);
    assert EntryOf(net.routers, net.routers[i].db, k, j);
  }

  lemma QuietKnows(states: seq<Net>, events: seq<Event>, t: nat, i: nat, k: nat)
    requires ReliableRun(states, events) && t < |states| && i < |states[t].routers| && k < |states[t].routers[i].db|
    ensures Known(states[t].routers, i, k)
  {
    var net := states[t];
    var e := net.routers[i].db[k];
    RunHolds(states, events, t, t);
    assert RouterOk(net, i);
    assert EntryOk(net, net.routers[i].rid, e);
    var o: nat, s: nat :| RecordedAt(net, o, s, e.rid, e.seqNum, e.lsas);
    HistoryIsCurrent(states, events, t, o);
    assert EntryOf(net.routers, net.routers[i].db, k, o);
  }

  /** What delivery needs of the topology itself: symmetric links, and addresses and networks that cannot be
      confused. */
  ghost predicate SoundTopology(routers: seq<Router>) {
    && (forall i, j {:trigger Linked(routers, i, j)} :: Linked(routers, i, j) ==> Linked(routers, j, i))
    && (forall i {:trigger CleanNeighbours(routers, i)} :: 0 <= i < |routers| ==> CleanNeighbours(routers, i))
    && (forall i {:trigger DistinctAddresses(routers, i)} :: 0 <= i < |routers| ==> DistinctAddresses(routers, i))
    && (forall j, p {:trigger Adv(routers, j)[p]} :: 0 <= j < |routers| && 0 <= p < |Adv(routers, j)| ==>
      CleanLsa(routers, Adv(routers, j)[p]))
  }

  /** Flooding makes the databases agree. */
  lemma QuietMeansAgreed(states: seq<Net>, events: seq<Event>, t: nat)
    requires ReliableRun(states, events) && t < |states| && Quiet(states[t]) && SoundTopology(states[t].routers)
    ensures Agreed(states[t].routers)
  {
    var net := states[t];
    RunHolds(states, events, t, t);
    ReliableRunHolds(states, events, t, t);
    forall i | 0 <= i < |net.routers| ensures Synchronized(net.routers, i) {
      assert RouterOk(net, i);
      forall k | 0 <= k < |net.routers[i].db| ensures Known(net.routers, i, k) {
        QuietKnows(states, events, t, i, k);
      }
      forall j | 0 <= j < |net.routers| && j != i ensures Stored(net.routers, i, j) {
        QuietStores(states, events, t, i, j);
      }
    }
  }

  /** End to end: after any run of originations, deliveries and duplications that has come to rest, the tables
      each router computes from its own database deliver every packet for a stub network in exactly as many
      hops as the shortest path has. */
  lemma DeliveredAfterFlooding(states: seq<Net>, events: seq<Event>, t: nat, tables: seq<seq<Route>>,
                               stub: nat, p: nat, x: Addr, path: seq<nat>, d: nat)
    requires ReliableRun(states, events) && t < |states| && Quiet(states[t]) && SoundTopology(states[t].routers)
    requires Stub(states[t].routers, stub, p, x) && TablesOf(states[t].routers, tables)
    requires |path| > 0 && path[0] < |states[t].routers| && Dist(states[t].routers, path[0], stub, d)
    requires Forwarding(states[t].routers, tables, x, path)
    ensures |path| - 1 <= d && path[|path| - 1] < |states[t].routers|
    ensures Dist(states[t].routers, path[|path| - 1], stub, d - (|path| - 1))
    ensures path[|path| - 1] == stub <==> |path| - 1 == d
    ensures path[|path| - 1] != stub ==> HasNextHop(states[t].routers, tables, x, path[|path| - 1])
  {
    QuietMeansAgreed(states, events, t);
    DeliveredInShortestHops(states[t].routers, tables, stub, p, x, path, d);
  }
}
