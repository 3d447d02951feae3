/** update_rtable as the C code runs it: fixed arrays of nodes, edges, visit marks and queue slots,
    filled and scanned in place (07-mospf/mospf_daemon.c). */
module MospfRoutes {
  import opened Pigeonhole
  import opened MospfRouter
  import opened MospfGraph

  const MN := 25
  const MNBR := 5

  datatype RNode = RNode(rid: Addr, gw: Addr, mask: Addr, network: Addr, nadv: nat, iface: nat)

  /** A routing-table entry; gateway 0 marks a directly connected network. */
  datatype Route = Route(dest: Addr, mask: Addr, gw: Addr, iface: nat)

  /** The array slot holds the node; network and mask are meaningful once an LSA has named it. */
  predicate Matches(r: RNode, node: Node) {
    r.rid == node.rid && r.nadv == node.nadv && (node.net.Some? ==> (r.network, r.mask) == node.net.value)
  }

  predicate Represents(rnode: seq<RNode>, nodes: seq<Node>) {
    |nodes| <= |rnode| && forall l {:trigger Matches(rnode[l], nodes[l])} {:trigger rnode[l]} :: 0 <= l < |nodes| ==>
      Matches(rnode[l], nodes[l])
  }

  ghost predicate RowIn(graph: array2<nat>, e: nat, row: seq<nat>)
    reads graph
  {
    && e < graph.Length0 && |row| <= graph.Length1
    && forall j :: 0 <= j < |row| ==> graph[e, j] == row[j]
  }

  ghost predicate RowsIn(graph: array2<nat>, rows: seq<seq<nat>>)
    reads graph
  {
    forall e {:trigger RowIn(graph, e, rows[e])} :: 0 <= e < |rows| ==> RowIn(graph, e, rows[e])
  }

  /** The array holds all rows of the graph; a node's count is the length of its row. */
  ghost predicate GraphIn(graph: array2<nat>, g: Graph)
    reads graph
  {
    forall u: nat {:trigger RowIn(graph, u, Row(g, u))} :: u < |g.nodes| ==>
      RowIn(graph, u, Row(g, u)) && g.nodes[u].nadv == |Row(g, u)|
  }

  /** The database fits the fixed arrays. */
  ghost predicate Fits(db: seq<Entry>) {
    |Build(db).nodes| <= MN && forall e :: 0 <= e < |db| ==> |db[e].lsas| <= MNBR
  }

  lemma {:induction false} AddLsasGrows(nodes: seq<Node>, lsas: seq<Lsa>, a: nat, b: nat)
    requires a <= b <= |lsas|
    ensures |AddLsas(nodes, lsas, a).0| <= |AddLsas(nodes, lsas, b).0|
    decreases b
  {
    if a < b {
      AddLsasGrows(nodes, lsas, a, b - 1);
    }
  }

  lemma {:induction false} BuildGrows(db: seq<Entry>, a: nat, b: nat)
    requires a <= b <= |db|
    ensures |BuildRows(db, a).0| <= |BuildRows(db, b).0|
    decreases b
  {
    if a < b {
      BuildGrows(db, a, b - 1);
      AddLsasGrow(BuildRows(db, b - 1).0, db[b - 1].lsas, |db[b - 1].lsas|);
    }
  }

  /** Slot (i, j) is the only one that may differ. */
  twostate predicate OnlySlot(graph: array2<nat>, i: nat, j: nat)
    reads graph
  {
    forall a, b :: 0 <= a < graph.Length0 && 0 <= b < graph.Length1 && (a != i || b != j) ==>
      graph[a, b] == old(graph[a, b])
  }

  /** A new leaf after the known nodes. */
  method EnterLeaf(rnode: array<RNode>, k: nat, lsa: Lsa, ghost nodes: seq<Node>)
    requires k == |nodes| < rnode.Length && Represents(rnode[..], nodes)
    modifies rnode
    ensures Represents(rnode[..], nodes + [LeafNode(lsa)])
  {
    rnode[k] := rnode[k].(rid := lsa.network, mask := lsa.mask, nadv := 0, network := lsa.network);
  }

  /** The scan over the known nodes: every node that the LSA names takes its network and mask, and
      the last one is the target of the edge. */
  method ScanNodes(rnode: array<RNode>, graph: array2<nat>, k: nat, i: nat, j: nat, lsa: Lsa, ghost nodes: seq<Node>)
    returns (found: bool)
    requires rnode.Length == MN == graph.Length0 && graph.Length1 == MNBR && i < MN && j < MNBR
    requires k == |nodes| && Represents(rnode[..], nodes)
    modifies rnode, graph
    ensures Represents(rnode[..], Touch(nodes, lsa)) && OnlySlot(graph, i, j)
    ensures found <==> FindLast(nodes, lsa.rid, k).Some?
    ensures found ==> graph[i, j] == FindLast(nodes, lsa.rid, k).value
  {
    found := false;
    for l := 0 to k
      invariant found <==> FindLast(nodes, lsa.rid, l).Some?
      invariant found ==> graph[i, j] == FindLast(nodes, lsa.rid, l).value
      invariant OnlySlot(graph, i, j)
      invariant forall m :: 0 <= m < l ==> Matches(rnode[m], Touched(nodes[m], lsa))
      invariant forall m :: l <= m < k ==> Matches(rnode[m], nodes[m])
    {
      if rnode[l].rid == lsa.rid {
        graph[i, j] := l;
        rnode[l] := rnode[l].(mask := lsa.mask, network := lsa.network);
        found := true;
      }
    }
  }

  /** One advertisement: the scan, and the new leaf if no node matched. */
  method AddAdvertisement(rnode: array<RNode>, graph: array2<nat>, k: nat, i: nat, j: nat, lsa: Lsa,
                          ghost nodes: seq<Node>)
    returns (k': nat)
    requires rnode.Length == MN == graph.Length0 && graph.Length1 == MNBR && i < MN && j < MNBR
    requires k == |nodes| && Represents(rnode[..], nodes) && |AddLsa(nodes, lsa).0| <= MN
    modifies rnode, graph
    ensures k' == |AddLsa(nodes, lsa).0| && Represents(rnode[..], AddLsa(nodes, lsa).0)
    ensures graph[i, j] == AddLsa(nodes, lsa).1
    ensures OnlySlot(graph, i, j)
  {
    var found := ScanNodes(rnode, graph, k, i, j, lsa, nodes);
    k' := k;
    if !found {
      assert Touch(nodes, lsa) == nodes;
      EnterLeaf(rnode, k, lsa, nodes);
      graph[i, j] := k;
      k' := k + 1;
    }
  }

  /** Rows other than `i` are as before. */
  twostate predicate OnlyRow(graph: array2<nat>, i: nat)
    reads graph
  {
    forall a, b :: 0 <= a < graph.Length0 && 0 <= b < graph.Length1 && a != i ==> graph[a, b] == old(graph[a, b])
  }

  /** All advertisements of one database entry. */
  method AddEntry(rnode: array<RNode>, graph: array2<nat>, k: nat, i: nat, lsas: seq<Lsa>, ghost nodes: seq<Node>)
    returns (k': nat)
    requires rnode.Length == MN == graph.Length0 && graph.Length1 == MNBR && i < MN && |lsas| <= MNBR
    requires k == |nodes| && Represents(rnode[..], nodes) && |AddLsas(nodes, lsas, |lsas|).0| <= MN
    modifies rnode, graph
    ensures k' == |AddLsas(nodes, lsas, |lsas|).0| && Represents(rnode[..], AddLsas(nodes, lsas, |lsas|).0)
    ensures RowIn(graph, i, AddLsas(nodes, lsas, |lsas|).1) && OnlyRow(graph, i)
  {
    k' := k;
    for j := 0 to |lsas|
      invariant k' == |AddLsas(nodes, lsas, j).0| && Represents(rnode[..], AddLsas(nodes, lsas, j).0)
      invariant RowIn(graph, i, AddLsas(nodes, lsas, j).1) && OnlyRow(graph, i)
    {
      AddLsasGrows(nodes, lsas, j + 1, |lsas|);
      k' := AddAdvertisement(rnode, graph, k', i, j, lsas[j], AddLsas(nodes, lsas, j).0);
    }
  }

  /** One node for each database entry. */
  method EnterRouters(db: seq<Entry>, rnode: array<RNode>) returns (k: nat)
    requires rnode.Length == MN && Fits(db)
    modifies rnode
    ensures k == |db| && Represents(rnode[..], InitialNodes(db))
  {
    k := 0;
    BuildRowsGrow(db, |db|);
    while k < |db|
      invariant k <= |db|
      invariant forall l :: 0 <= l < k ==> rnode[l].rid == db[l].rid && rnode[l].nadv == |db[l].lsas|
    {
      rnode[k] := rnode[k].(rid := db[k].rid, nadv := |db[k].lsas|);
      k := k + 1;
    }
  }

  /** One entry more. */
  method AddNext(db: seq<Entry>, rnode: array<RNode>, graph: array2<nat>, k: nat, i: nat) returns (k': nat)
    requires rnode.Length == MN == graph.Length0 && graph.Length1 == MNBR && Fits(db) && i < |db|
    requires k == |BuildRows(db, i).0| && Represents(rnode[..], BuildRows(db, i).0)
    requires RowsIn(graph, BuildRows(db, i).1)
    modifies rnode, graph
    ensures k' == |BuildRows(db, i + 1).0| && Represents(rnode[..], BuildRows(db, i + 1).0)
    ensures RowsIn(graph, BuildRows(db, i + 1).1)
  {
    BuildGrows(db, i + 1, |db|);
    BuildRowsGrow(db, |db|);
    ghost var rows, rows' := BuildRows(db, i).1, BuildRows(db, i + 1).1;
    label Before:
    k' := AddEntry(rnode, graph, k, i, db[i].lsas, BuildRows(db, i).0);
    forall e | 0 <= e < |rows'| ensures RowIn(graph, e, rows'[e]) {
      assert e < i ==> rows'[e] == rows[e] && old@Before(RowIn(graph, e, rows[e]));
    }
  }

  /** The database half of update_rtable. */
  method BuildGraph(db: seq<Entry>, rnode: array<RNode>, graph: array2<nat>) returns (k: nat)
    requires rnode.Length == MN == graph.Length0 && graph.Length1 == MNBR && Fits(db)
    modifies rnode, graph
    ensures k == |Build(db).nodes| && Represents(rnode[..], Build(db).nodes)
    ensures RowsIn(graph, Build(db).adj)
  {
    k := EnterRouters(db, rnode);
    for i := 0 to |db|
      invariant k == |BuildRows(db, i).0| && Represents(rnode[..], BuildRows(db, i).0)
      invariant RowsIn(graph, BuildRows(db, i).1)
    {
      k := AddNext(db, rnode, graph, k, i);
    }
  }

  /** Visit mark, gateway and interface of node `v` after the given seeds. */
  ghost predicate SeededAt(rnode: seq<RNode>, visit: seq<bool>, seeds: seq<Seed>, v: nat)
    requires v < |rnode| == |visit|
  {
    && (visit[v] <==> IsSeed(seeds, v))
    && (IsSeed(seeds, v) ==> rnode[v].gw == LastSeed(seeds, v).gw && rnode[v].iface == LastSeed(seeds, v).iface)
  }

  predicate QueuedAt(queue: seq<nat>, seeds: seq<Seed>, j: nat, k: nat) {
    j < |queue| == |seeds| && queue[j] == seeds[j].node < k
  }

  /** Queue, visit marks, gateways and interfaces after the given seeds have been entered in order. */
  ghost predicate Seeded(rnode: seq<RNode>, visit: seq<bool>, queue: seq<nat>, seeds: seq<Seed>, k: nat) {
    && k <= |rnode| == |visit| && |queue| == |seeds|
    && (forall j {:trigger QueuedAt(queue, seeds, j, k)} :: 0 <= j < |seeds| ==> QueuedAt(queue, seeds, j, k))
    && (forall v {:trigger SeededAt(rnode, visit, seeds, v)} :: 0 <= v < k ==> SeededAt(rnode, visit, seeds, v))
  }

  lemma SeedAppended(seeds: seq<Seed>, s: Seed, v: nat)
    ensures IsSeed(seeds + [s], v) <==> IsSeed(seeds, v) || v == s.node
    ensures IsSeed(seeds + [s], v) ==> LastSeed(seeds + [s], v) == if v == s.node then s else LastSeed(seeds, v)
  {
    var all := seeds + [s];
    assert all[..|all| - 1] == seeds;
    assert all[|seeds|] == s;
    if IsSeed(seeds, v) {
      var j :| 0 <= j < |seeds| && seeds[j].node == v;
      assert all[j].node == v;
    }
  }

  /** Entering one more seed. */
  lemma SeedEntered(rnode: seq<RNode>, visit: seq<bool>, queue: seq<nat>, seeds: seq<Seed>, k: nat, s: Seed)
    requires Seeded(rnode, visit, queue, seeds, k) && s.node < k
    ensures Seeded(rnode[s.node := rnode[s.node].(iface := s.iface, gw := s.gw)], visit[s.node := true],
                   queue + [s.node], seeds + [s], k)
  {
    var rnode', visit' := rnode[s.node := rnode[s.node].(iface := s.iface, gw := s.gw)], visit[s.node := true];
    forall j | 0 <= j < |seeds| + 1 ensures QueuedAt(queue + [s.node], seeds + [s], j, k) {
      assert j < |seeds| ==> QueuedAt(queue, seeds, j, k);
    }
    forall v | 0 <= v < k ensures SeededAt(rnode', visit', seeds + [s], v) {
      SeedAppended(seeds, s, v);
      assert SeededAt(rnode, visit, seeds, v);
    }
  }

  /** The loop body of the neighbour scan. */
  method EnterSeed(s: Seed, rnode: array<RNode>, visit: array<bool>, queue: array<nat>, k: nat, i2: nat,
                   ghost nodes: seq<Node>, ghost seeds: seq<Seed>)
    requires rnode.Length == visit.Length == queue.Length == MN && i2 < MN && s.node < k == |nodes|
    requires Represents(rnode[..], nodes) && Seeded(rnode[..], visit[..], queue[..i2], seeds, k)
    modifies rnode, visit, queue
    ensures Represents(rnode[..], nodes) && Seeded(rnode[..], visit[..], queue[..i2 + 1], seeds + [s], k)
  {
    SeedEntered(rnode[..], visit[..], queue[..i2], seeds, k, s);
    var i := s.node;
    rnode[i] := rnode[i].(iface := s.iface, gw := s.gw);
    visit[i] := true;
    queue[i2] := i;
    assert rnode[..] == old(rnode[..])[i := rnode[i]];
    assert queue[..i2 + 1] == old(queue[..i2]) + [i];
  }

  /** One neighbour: every node with its id becomes a seed. */
  method SeedNeighbour(nbr: Neighbour, iface: nat, rnode: array<RNode>, visit: array<bool>, queue: array<nat>,
                       k: nat, i2: nat, ghost nodes: seq<Node>, ghost seeds: seq<Seed>) returns (i2': nat)
    requires rnode.Length == visit.Length == queue.Length == MN && i2 <= MN && k == |nodes|
    requires Represents(rnode[..], nodes) && Seeded(rnode[..], visit[..], queue[..i2], seeds, k)
    requires |seeds + NeighbourSeeds(nodes, nbr, iface, k)| <= MN
    modifies rnode, visit, queue
    ensures i2' <= MN && Represents(rnode[..], nodes)
    ensures Seeded(rnode[..], visit[..], queue[..i2'], seeds + NeighbourSeeds(nodes, nbr, iface, k), k)
  {
    i2' := i2;
    assert seeds + NeighbourSeeds(nodes, nbr, iface, 0) == seeds;
    for i := 0 to k
      invariant i2' <= MN && Represents(rnode[..], nodes)
      invariant Seeded(rnode[..], visit[..], queue[..i2'], seeds + NeighbourSeeds(nodes, nbr, iface, i), k)
    {
      ghost var sofar := seeds + NeighbourSeeds(nodes, nbr, iface, i);
      SeedsGrow(nodes, nbr, iface, i + 1, k);
      if rnode[i].rid == nbr.id {
        assert seeds + NeighbourSeeds(nodes, nbr, iface, i + 1) == sofar + [Seed(i, nbr.ip, iface)];
        EnterSeed(Seed(i, nbr.ip, iface), rnode, visit, queue, k, i2', nodes, sofar);
        i2' := i2' + 1;
      } else {
        assert seeds + NeighbourSeeds(nodes, nbr, iface, i + 1) == sofar;
      }
    }
  }

  lemma {:induction false} SeedsGrow(nodes: seq<Node>, nbr: Neighbour, iface: nat, a: nat, b: nat)
    requires a <= b <= |nodes|
    ensures |NeighbourSeeds(nodes, nbr, iface, a)| <= |NeighbourSeeds(nodes, nbr, iface, b)|
    decreases b
  {
    if a < b {
      SeedsGrow(nodes, nbr, iface, a, b - 1);
    }
  }

  lemma {:induction false} IfaceSeedsGrow(nodes: seq<Node>, nbrs: seq<Neighbour>, iface: nat, a: nat, b: nat)
    requires a <= b <= |nbrs|
    ensures |IfaceSeeds(nodes, nbrs, iface, a)| <= |IfaceSeeds(nodes, nbrs, iface, b)|
    decreases b
  {
    if a < b {
      IfaceSeedsGrow(nodes, nbrs, iface, a, b - 1);
    }
  }

  lemma {:induction false} AllSeedsGrow(nodes: seq<Node>, ifaces: seq<Iface>, a: nat, b: nat)
    requires a <= b <= |ifaces|
    ensures |Seeds(nodes, ifaces, a)| <= |Seeds(nodes, ifaces, b)|
    decreases b
  {
    if a < b {
      AllSeedsGrow(nodes, ifaces, a, b - 1);
    }
  }

  lemma NextNeighbour(nodes: seq<Node>, nbrs: seq<Neighbour>, iface: nat, b: nat, seeds: seq<Seed>)
    requires b < |nbrs|
    ensures var next := seeds + IfaceSeeds(nodes, nbrs, iface, b) + NeighbourSeeds(nodes, nbrs[b], iface, |nodes|);
      && next == seeds + IfaceSeeds(nodes, nbrs, iface, b + 1)
      && |next| <= |seeds + IfaceSeeds(nodes, nbrs, iface, |nbrs|)|
  {
    IfaceSeedsGrow(nodes, nbrs, iface, b + 1, |nbrs|);
  }

  /** The neighbours of one interface. */
  method SeedIface(nbrs: seq<Neighbour>, iface: nat, rnode: array<RNode>, visit: array<bool>, queue: array<nat>,
                   k: nat, i2: nat, ghost nodes: seq<Node>, ghost seeds: seq<Seed>) returns (i2': nat)
    requires rnode.Length == visit.Length == queue.Length == MN && i2 <= MN && k == |nodes|
    requires Represents(rnode[..], nodes) && Seeded(rnode[..], visit[..], queue[..i2], seeds, k)
    requires |seeds + IfaceSeeds(nodes, nbrs, iface, |nbrs|)| <= MN
    modifies rnode, visit, queue
    ensures i2' <= MN && Represents(rnode[..], nodes)
    ensures Seeded(rnode[..], visit[..], queue[..i2'], seeds + IfaceSeeds(nodes, nbrs, iface, |nbrs|), k)
  {
    i2' := i2;
    ghost var sofar := seeds;
    for b := 0 to |nbrs|
      invariant i2' <= MN && Represents(rnode[..], nodes)
      invariant sofar == seeds + IfaceSeeds(nodes, nbrs, iface, b)
      invariant Seeded(rnode[..], visit[..], queue[..i2'], sofar, k)
    {
      NextNeighbour(nodes, nbrs, iface, b, seeds);
      i2' := SeedNeighbour(nbrs[b], iface, rnode, visit, queue, k, i2', nodes, sofar);
      sofar := sofar + NeighbourSeeds(nodes, nbrs[b], iface, k);
    }
  }

  /** The seeds of the first `n` interfaces have been entered. The quantifier keeps them folded. */
  ghost predicate SeededUpTo(rnode: seq<RNode>, visit: seq<bool>, queue: seq<nat>, nodes: seq<Node>,
                             ifaces: seq<Iface>, n: nat) {
    n <= |ifaces|
    && forall seeds {:trigger Seeded(rnode, visit, queue, seeds, |nodes|)} ::
      seeds == Seeds(nodes, ifaces, n) ==> Seeded(rnode, visit, queue, seeds, |nodes|)
  }

  /** One interface more. */
  method SeedNext(ifaces: seq<Iface>, a: nat, rnode: array<RNode>, visit: array<bool>, queue: array<nat>, k: nat,
                  i2: nat, ghost nodes: seq<Node>)
    returns (i2': nat)
    requires rnode.Length == visit.Length == queue.Length == MN && i2 <= MN && k == |nodes| && a < |ifaces|
    requires Represents(rnode[..], nodes) && SeededUpTo(rnode[..], visit[..], queue[..i2], nodes, ifaces, a)
    requires |Seeds(nodes, ifaces, |ifaces|)| <= MN
    modifies rnode, visit, queue
    ensures i2' <= MN && Represents(rnode[..], nodes)
    ensures SeededUpTo(rnode[..], visit[..], queue[..i2'], nodes, ifaces, a + 1)
  {
    AllSeedsGrow(nodes, ifaces, a + 1, |ifaces|);
    i2' := SeedIface(ifaces[a].nbrs, a, rnode, visit, queue, k, i2, nodes, Seeds(nodes, ifaces, a));
  }

  lemma NothingSeeded(rnode: seq<RNode>, visit: seq<bool>, queue: seq<nat>, k: nat)
    requires k <= |rnode| == |visit| && queue == [] && forall v :: 0 <= v < |visit| ==> !visit[v]
    ensures Seeded(rnode, visit, queue, [], k)
  {
    forall v: nat | v < k ensures SeededAt(rnode, visit, [], v) {}
  }

  /** The neighbour half of update_rtable: the queue starts with the router's own neighbours. */
  method SeedQueue(ifaces: seq<Iface>, rnode: array<RNode>, visit: array<bool>, queue: array<nat>, k: nat,
                   ghost nodes: seq<Node>)
    returns (i2: nat)
    requires rnode.Length == visit.Length == queue.Length == MN && k == |nodes| && Represents(rnode[..], nodes)
    requires forall v :: 0 <= v < MN ==> !visit[v]
    requires |Seeds(nodes, ifaces, |ifaces|)| <= MN
    modifies rnode, visit, queue
    ensures i2 <= MN && Represents(rnode[..], nodes)
    ensures Seeded(rnode[..], visit[..], queue[..i2], Seeds(nodes, ifaces, |ifaces|), k)
  {
    i2 := 0;
    NothingSeeded(rnode[..], visit[..], queue[..i2], k);
    for a := 0 to |ifaces|
      invariant i2 <= MN && Represents(rnode[..], nodes)
      invariant SeededUpTo(rnode[..], visit[..], queue[..i2], nodes, ifaces, a)
    {
      i2 := SeedNext(ifaces, a, rnode, visit, queue, k, i2, nodes);
    }
  }

  // ---- The search ----

  function RouteTo(node: Node, seed: Seed): Route
    requires node.net.Some?
  {
    Route(node.net.value.0, node.net.value.1, seed.gw, seed.iface)
  }

  ghost predicate RouteFollows(g: Graph, seeds: seq<Seed>, v: nat, src: seq<nat>, r: Route)
    requires |src| == |g.nodes|
  {
    && v < |g.nodes| && g.nodes[v].net.Some? && IsSeed(seeds, src[v])
    && r == RouteTo(g.nodes[v], LastSeed(seeds, src[v]))
  }

  /** One route for each discovered node, through the seed it was reached from. */
  ghost predicate RoutesFollow(g: Graph, seeds: seq<Seed>, order: seq<nat>, src: seq<nat>, added: seq<Route>) {
    && |added| == |order| && |src| == |g.nodes|
    && forall t {:trigger RouteFollows(g, seeds, order[t], src, added[t])} :: 0 <= t < |order| ==>
         RouteFollows(g, seeds, order[t], src, added[t])
  }

  /** The routes that update_rtable must add: one for each node reachable from a neighbour that is
      not itself one, through a neighbour on a path with the fewest hops, in order of distance. */
  ghost predicate RoutesCorrect(g: Graph, seeds: seq<Seed>, order: seq<nat>, src: seq<nat>, dist: seq<nat>,
                                added: seq<Route>) {
    && RoutesFollow(g, seeds, order, src, added) && |dist| == |g.nodes|
    && (forall t :: 0 <= t < |order| ==> order[t] < |g.nodes|)
    && (forall i, j :: 0 <= i < j < |order| ==> order[i] != order[j] && dist[order[i]] <= dist[order[j]])
    && (forall v :: v in order <==> v in Wanted(g, seeds))
    && (forall t {:trigger order[t]} :: 0 <= t < |order| ==> Nearest(g, seeds, src[order[t]], order[t], dist[order[t]]))
  }

  /** A visited node carries the gateway and interface of the seed it was reached from. */
  ghost predicate TracksAt(rnode: seq<RNode>, seeds: seq<Seed>, b: Search, v: nat)
    requires v < |rnode| && v < |b.src|
  {
    && IsSeed(seeds, b.src[v])
    && rnode[v].gw == LastSeed(seeds, b.src[v]).gw && rnode[v].iface == LastSeed(seeds, b.src[v]).iface
  }

  /** The arrays agree with the search. */
  ghost predicate Tracks(rnode: seq<RNode>, visit: seq<bool>, queue: seq<nat>, seeds: seq<Seed>, nodes: seq<Node>,
                         b: Search) {
    && Represents(rnode, nodes) && queue == b.queue
    && |b.visited| == |b.src| == |nodes| <= |visit|
    && (forall v :: 0 <= v < |nodes| ==> visit[v] == b.visited[v])
    && (forall v {:trigger TracksAt(rnode, seeds, b, v)} :: 0 <= v < |nodes| && b.visited[v] ==>
      TracksAt(rnode, seeds, b, v))
  }

  /** The search that has only the seeds. */
  ghost function SeedSearch(n: nat, visit: seq<bool>, queue: seq<nat>): Search
    requires n <= |visit|
  {
    Search(queue, visit[..n], seq(n, _ => 0), seq(n, v => v))
  }

  lemma SeedQueueOk(g: Graph, seeds: seq<Seed>, rnode: seq<RNode>, visit: seq<bool>, queue: seq<nat>)
    requires Represents(rnode, g.nodes) && Seeded(rnode, visit, queue, seeds, |g.nodes|)
    ensures QueueOk(g, seeds, SeedSearch(|g.nodes|, visit, queue))
  {
    var b := SeedSearch(|g.nodes|, visit, queue);
    forall v: nat | v < |g.nodes| && b.visited[v] ensures Queued(b, v) {
      assert SeededAt(rnode, visit, seeds, v);
      var j :| 0 <= j < |seeds| && seeds[j].node == v;
      assert QueuedAt(queue, seeds, j, |g.nodes|) && b.queue[j] == v;
    }
    forall j | 0 <= j < |seeds| ensures b.queue[j] == seeds[j].node {
      assert QueuedAt(queue, seeds, j, |g.nodes|);
    }
    forall j | 0 <= j < |b.queue| ensures b.queue[j] < |g.nodes| && b.visited[b.queue[j]] {
      assert QueuedAt(queue, seeds, j, |g.nodes|);
      assert SeededAt(rnode, visit, seeds, b.queue[j]);
    }
  }

  lemma SeedSearchOk(g: Graph, seeds: seq<Seed>, rnode: seq<RNode>, visit: seq<bool>, queue: seq<nat>)
    requires Represents(rnode, g.nodes) && Seeded(rnode, visit, queue, seeds, |g.nodes|)
    ensures SearchOk(g, seeds, SeedSearch(|g.nodes|, visit, queue))
    ensures Tracks(rnode, visit, queue, seeds, g.nodes, SeedSearch(|g.nodes|, visit, queue))
    ensures WithinLevel(SeedSearch(|g.nodes|, visit, queue), 0)
  {
    var b := SeedSearch(|g.nodes|, visit, queue);
    SeedQueueOk(g, seeds, rnode, visit, queue);
    forall v: nat | v < |g.nodes|
      ensures (b.visited[v] <==> IsSeed(seeds, v)) && Reach(g, v, v, 0)
      ensures IsSeed(seeds, v) ==> rnode[v].gw == LastSeed(seeds, v).gw && rnode[v].iface == LastSeed(seeds, v).iface
    {
      assert SeededAt(rnode, visit, seeds, v);
    }
    assert DistOk(g, seeds, b);
  }

  /** The queue can hold all seeds and all nodes still to be found. */
  lemma RoomInQueue(g: Graph, seeds: seq<Seed>, b: Search, w: nat)
    requires SearchOk(g, seeds, b) && w < |g.nodes| && !b.visited[w]
    requires exists n: nat :: ReachedFrom(g, seeds, w, n)
    ensures |b.queue| < |seeds| + |Wanted(g, seeds)|
  {
    var found := b.queue[|seeds|..] + [w];
    forall v: nat | v in found ensures v in Wanted(g, seeds) {
      if v != w {
        assert b.visited[v];
        assert ReachedFrom(g, seeds, v, b.dist[v]);
      }
    }
    assert Distinct(found);
    SubsetCardinality(Elements(found), Wanted(g, seeds));
  }

  /** Everything true between two steps of the search loop. */
  ghost predicate SearchState(g: Graph, seeds: seq<Seed>, b: Search, rnode: seq<RNode>, visit: seq<bool>,
                              queue: seq<nat>, base: seq<Route>, rtable: seq<Route>) {
    && SearchOk(g, seeds, b) && WellFormed(g) && Tracks(rnode, visit, queue, seeds, g.nodes, b)
    && |base| <= |rtable| && rtable[..|base|] == base
    && RoutesFollow(g, seeds, b.queue[|seeds|..], b.src, rtable[|base|..])
    && |seeds| + |Wanted(g, seeds)| <= MN
  }

  /** An unvisited target is a named node, and there is room for it in the queue. */
  lemma VisitFacts(g: Graph, seeds: seq<Seed>, b: Search, th: nat, i: nat)
    requires SearchOk(g, seeds, b) && WellFormed(g) && |seeds| + |Wanted(g, seeds)| <= MN
    requires th < |g.nodes| && b.visited[th] && i < |Row(g, th)|
    requires Row(g, th)[i] < |g.nodes| && !b.visited[Row(g, th)[i]]
    ensures |b.queue| < MN && g.nodes[Row(g, th)[i]].net.Some? && IsSeed(seeds, b.src[th])
  {
    var next := Row(g, th)[i];
    assert RowOk(g.nodes, Row(g, th));
    assert Reach(g, b.src[th], th, b.dist[th]) && Reach(g, b.src[th], next, b.dist[th] + 1);
    assert ReachedFrom(g, seeds, next, b.dist[th] + 1);
    RoomInQueue(g, seeds, b, next);
  }

  lemma VisitTracks(seeds: seq<Seed>, nodes: seq<Node>, b: Search, rnode: seq<RNode>, visit: seq<bool>, queue: seq<nat>,
                    th: nat, next: nat)
    requires Tracks(rnode, visit, queue, seeds, nodes, b) && |b.dist| == |b.visited|
    requires th < |nodes| && b.visited[th] && next < |nodes| && !b.visited[next]
    ensures Tracks(rnode[next := rnode[next].(iface := rnode[th].iface, gw := rnode[th].gw)], visit[next := true],
                   queue + [next], seeds, nodes, Push(b, th, next))
  {
    var rnode' := rnode[next := rnode[next].(iface := rnode[th].iface, gw := rnode[th].gw)];
    var c := Push(b, th, next);
    assert TracksAt(rnode, seeds, b, th);
    forall v: nat | v < |nodes| && c.visited[v] ensures TracksAt(rnode', seeds, c, v) {
      assert v != next ==> TracksAt(rnode, seeds, b, v);
    }
    forall l | 0 <= l < |nodes| ensures Matches(rnode'[l], nodes[l]) {
      assert Matches(rnode[l], nodes[l]);
    }
  }

  lemma VisitRoutes(g: Graph, seeds: seq<Seed>, order: seq<nat>, src: seq<nat>, added: seq<Route>, next: nat, s: nat)
    requires RoutesFollow(g, seeds, order, src, added) && next < |g.nodes| && g.nodes[next].net.Some?
      && IsSeed(seeds, s)
    requires next !in order
    ensures RoutesFollow(g, seeds, order + [next], src[next := s], added + [RouteTo(g.nodes[next], LastSeed(seeds, s))])
  {
    var order', src', added' := order + [next], src[next := s], added + [RouteTo(g.nodes[next], LastSeed(seeds, s))];
    forall t | 0 <= t < |order'| ensures RouteFollows(g, seeds, order'[t], src', added'[t]) {
      assert t < |order| ==> RouteFollows(g, seeds, order[t], src, added[t]);
    }
  }

  /** The list of routes after the one for a new node. */
  lemma VisitAddsRoute(g: Graph, seeds: seq<Seed>, b: Search, base: seq<Route>, rtable: seq<Route>, th: nat, next: nat)
    requires QueueOk(g, seeds, b) && |seeds| <= |b.queue| && |b.src| == |g.nodes| == |b.visited|
    requires th < |g.nodes| && next < |g.nodes| && !b.visited[next] && g.nodes[next].net.Some?
    requires IsSeed(seeds, b.src[th])
    requires |base| <= |rtable| && rtable[..|base|] == base
    requires RoutesFollow(g, seeds, b.queue[|seeds|..], b.src, rtable[|base|..])
    ensures var more := rtable + [RouteTo(g.nodes[next], LastSeed(seeds, b.src[th]))];
      && |base| <= |more| && more[..|base|] == base
      && RoutesFollow(g, seeds, (b.queue + [next])[|seeds|..], b.src[next := b.src[th]], more[|base|..])
  {
    var order, route := b.queue[|seeds|..], RouteTo(g.nodes[next], LastSeed(seeds, b.src[th]));
    assert next !in order by {
      assert forall t :: 0 <= t < |order| ==> b.visited[order[t]];
    }
    VisitRoutes(g, seeds, order, b.src, rtable[|base|..], next, b.src[th]);
    assert (b.queue + [next])[|seeds|..] == order + [next];
    assert (rtable + [route])[|base|..] == rtable[|base|..] + [route];
  }

  /** Visiting one new node keeps the state. */
  lemma VisitKeeps(g: Graph, seeds: seq<Seed>, b: Search, rnode: seq<RNode>, visit: seq<bool>, queue: seq<nat>,
                   base: seq<Route>, rtable: seq<Route>, th: nat, i: nat)
    requires SearchState(g, seeds, b, rnode, visit, queue, base, rtable)
    requires th < |g.nodes| && b.visited[th] && WithinLevel(b, b.dist[th]) && i < |Row(g, th)|
    requires Row(g, th)[i] < |g.nodes| && !b.visited[Row(g, th)[i]]
    ensures var next := Row(g, th)[i];
      && |queue| < MN
      && SearchState(g, seeds, Push(b, th, next),
        rnode[next := rnode[next].(iface := rnode[th].iface, gw := rnode[th].gw)],
                     visit[next := true], queue + [next], base,
                     rtable + [Route(rnode[next].network, rnode[next].mask, rnode[th].gw, rnode[th].iface)])
  {
    var next := Row(g, th)[i];
    VisitFacts(g, seeds, b, th, i);
    PushKeeps(g, seeds, b, th, next);
    VisitTracks(seeds, g.nodes, b, rnode, visit, queue, th, next);
    assert TracksAt(rnode, seeds, b, th) && Matches(rnode[next], g.nodes[next]);
    VisitAddsRoute(g, seeds, b, base, rtable, th, next);
  }

  /** The seeds of a router with this database and these interfaces. */
  function SeedsOf(db: seq<Entry>, ifaces: seq<Iface>): seq<Seed> {
    Seeds(Build(db).nodes, ifaces, |ifaces|)
  }

  /** The queue array can hold all seeds and all nodes that will be found. */
  ghost predicate QueueFits(db: seq<Entry>, ifaces: seq<Iface>) {
    |SeedsOf(db, ifaces)| + |Wanted(Build(db), SeedsOf(db, ifaces))| <= MN
  }

  predicate IsDirect(r: Route) { r.gw == 0 }

  function Direct(rtable: seq<Route>): seq<Route> {
    if rtable == [] then []
    else (if IsDirect(rtable[0]) then [rtable[0]] else []) + Direct(rtable[1..])
  }

  class RoutingTable {
    var rtable: seq<Route>

    /** The first loop of update_rtable: all older gateway routes go, the others stay in order. */
    method ClearGatewayRoutes()
      modifies this
      ensures rtable == Direct(old(rtable))
    {
      var kept := [];
      for i := 0 to |rtable|
        invariant rtable == old(rtable) && kept + Direct(rtable[i..]) == Direct(rtable)
      {
        assert rtable[i..][1..] == rtable[i + 1..];
        if rtable[i].gw == 0 {
          kept := kept + [rtable[i]];
        }
      }
      rtable := kept;
    }

    /** A node seen for the first time: it inherits gateway and interface, gets a route, is marked
        and queued. */
    method VisitNode(th: nat, next: nat, rnode: array<RNode>, visit: array<bool>, queue: array<nat>, i2: nat,
                     ghost g: Graph, ghost seeds: seq<Seed>, ghost base: seq<Route>, ghost b: Search, ghost i: nat)
      requires rnode.Length == visit.Length == queue.Length == MN && i2 <= MN
      requires SearchState(g, seeds, b, rnode[..], visit[..], queue[..i2], base, rtable)
      requires th < |g.nodes| && b.visited[th] && WithinLevel(b, b.dist[th]) && i < |Row(g, th)|
      requires next == Row(g, th)[i] < |g.nodes| && !visit[next]
      modifies rnode, visit, queue, this
      ensures i2 < MN
      ensures SearchState(g, seeds, Push(b, th, next), rnode[..], visit[..], queue[..i2 + 1], base, rtable)
    {
      VisitKeeps(g, seeds, b, rnode[..], visit[..], queue[..i2], base, rtable, th, i);
      ghost var rnode' := rnode[..][next := rnode[next].(iface := rnode[th].iface, gw := rnode[th].gw)];
      rnode[next] := rnode[next].(iface := rnode[th].iface, gw := rnode[th].gw);
      rtable := rtable + [Route(rnode[next].network, rnode[next].mask, rnode[th].gw, rnode[th].iface)];
      visit[next] := true;
      queue[i2] := next;
      assert rnode[..] == rnode';
      assert queue[..i2 + 1] == old(queue[..i2]) + [next];
    }

    /** Edge `i` of the node `th`, to a node not seen before. */
    method TakeEdge(th: nat, ghost i: nat, next: nat, rnode: array<RNode>, visit: array<bool>, queue: array<nat>,
                    i2: nat,
                    ghost g: Graph, ghost seeds: seq<Seed>, ghost base: seq<Route>, ghost b: Search)
      returns (i2': nat, ghost c: Search)
      requires rnode.Length == visit.Length == queue.Length == MN && i2 <= MN
      requires SearchState(g, seeds, b, rnode[..], visit[..], queue[..i2], base, rtable)
      requires th < |g.nodes| && b.visited[th] && WithinLevel(b, b.dist[th]) && EdgesDone(g, b, th, i)
      requires i < |Row(g, th)| && next == Row(g, th)[i] < |g.nodes| && !visit[next]
      modifies rnode, visit, queue, this
      ensures i2 <= i2' <= MN && SearchState(g, seeds, c, rnode[..], visit[..], queue[..i2'], base, rtable)
      ensures Later(b, c) && c.dist[th] == b.dist[th] && WithinLevel(c, c.dist[th]) && EdgesDone(g, c, th, i + 1)
    {
      PushFromHere(g, seeds, b, th, i);
      VisitNode(th, next, rnode, visit, queue, i2, g, seeds, base, b, i);
      return i2 + 1, Push(b, th, next);
    }

    /** The loop body of the search: edge `i` of the node `th`. */
    method FollowEdge(th: nat, i: nat, rnode: array<RNode>, visit: array<bool>, queue: array<nat>, graph: array2<nat>,
                      i2: nat,
                      ghost g: Graph, ghost seeds: seq<Seed>, ghost base: seq<Route>, ghost b: Search)
      returns (i2': nat, ghost c: Search)
      requires rnode.Length == visit.Length == queue.Length == MN && i2 <= MN
      requires SearchState(g, seeds, b, rnode[..], visit[..], queue[..i2], base, rtable)
      requires th < |g.nodes| && b.visited[th] && WithinLevel(b, b.dist[th]) && EdgesDone(g, b, th, i)
      requires RowIn(graph, th, Row(g, th)) && i < |Row(g, th)| && Row(g, th)[i] < |g.nodes|
      modifies rnode, visit, queue, this
      ensures i2 <= i2' <= MN && SearchState(g, seeds, c, rnode[..], visit[..], queue[..i2'], base, rtable)
      ensures Later(b, c) && c.dist[th] == b.dist[th] && WithinLevel(c, c.dist[th]) && EdgesDone(g, c, th, i + 1)
    {
      var next := graph[th, i];
      if visit[next] {
        PassVisited(g, seeds, b, rnode[..], visit[..], queue[..i2], base, rtable, th, i);
        return i2, b;
      }
      i2', c := TakeEdge(th, i, next, rnode, visit, queue, i2, g, seeds, base, b);
    }

    /** The inner loop of the search: all advertisements of the node just taken from the queue. */
    method Expand(th: nat, rnode: array<RNode>, visit: array<bool>, queue: array<nat>, graph: array2<nat>, i2: nat,
                  ghost g: Graph, ghost seeds: seq<Seed>, ghost base: seq<Route>, ghost b: Search)
      returns (i2': nat, ghost c: Search)
      requires rnode.Length == visit.Length == queue.Length == MN && i2 <= MN
      requires SearchState(g, seeds, b, rnode[..], visit[..], queue[..i2], base, rtable)
      requires th < |g.nodes| && b.visited[th] && WithinLevel(b, b.dist[th])
      requires RowIn(graph, th, Row(g, th)) && g.nodes[th].nadv == |Row(g, th)|
      modifies rnode, visit, queue, this
      ensures i2 <= i2' <= MN && SearchState(g, seeds, c, rnode[..], visit[..], queue[..i2'], base, rtable)
      ensures Later(b, c) && WithinLevel(c, c.dist[th]) && EdgesDone(g, c, th, |Row(g, th)|)
    {
      i2', c := i2, b;
      assert RowOk(g.nodes, Row(g, th));
      assert Matches(rnode[th], g.nodes[th]);
      for i := 0 to rnode[th].nadv
        invariant i2 <= i2' <= MN && SearchState(g, seeds, c, rnode[..], visit[..], queue[..i2'], base, rtable)
        invariant Later(b, c) && WithinLevel(c, c.dist[th]) && EdgesDone(g, c, th, i)
      {
        ghost var before := c;
        i2', c := FollowEdge(th, i, rnode, visit, queue, graph, i2', g, seeds, base, c);
        LaterAgain(b, before, c);
      }
    }

    /** One turn of the search loop: the node at the head of the queue has all its edges followed. */
    method SearchStep(i1: nat, rnode: array<RNode>, visit: array<bool>, queue: array<nat>, graph: array2<nat>, i2: nat,
                      ghost g: Graph, ghost seeds: seq<Seed>, ghost base: seq<Route>, ghost b: Search)
      returns (i2': nat, ghost c: Search)
      requires rnode.Length == visit.Length == queue.Length == MN && i1 < i2 <= MN
      requires SearchState(g, seeds, b, rnode[..], visit[..], queue[..i2], base, rtable) && HeadDone(g, b, i1)
      requires GraphIn(graph, g)
      modifies rnode, visit, queue, this
      ensures i2 <= i2' <= MN && SearchState(g, seeds, c, rnode[..], visit[..], queue[..i2'], base, rtable)
      ensures HeadDone(g, c, i1 + 1)
    {
      var th := queue[i1];
      assert th == b.queue[i1] && RowIn(graph, th, Row(g, th));
      i2', c := Expand(th, rnode, visit, queue, graph, i2, g, seeds, base, b);
      HeadAdvances(g, b, c, i1);
    }

    /** The search loop. */
    method Search(rnode: array<RNode>, visit: array<bool>, queue: array<nat>, graph: array2<nat>, start: nat,
                  ghost g: Graph, ghost seeds: seq<Seed>, ghost b: Search) returns (i2: nat, ghost c: Search)
      requires rnode.Length == visit.Length == queue.Length == MN && start <= MN
      requires SearchState(g, seeds, b, rnode[..], visit[..], queue[..start], rtable, rtable) && HeadDone(g, b, 0)
      requires GraphIn(graph, g)
      modifies rnode, visit, queue, this
      ensures i2 <= MN && SearchState(g, seeds, c, rnode[..], visit[..], queue[..i2], old(rtable), rtable)
      ensures HeadDone(g, c, i2)
    {
      var i1 := 0;
      i2, c := start, b;
      while i2 > i1
        invariant i1 <= i2 <= MN && SearchState(g, seeds, c, rnode[..], visit[..], queue[..i2], old(rtable), rtable)
        invariant HeadDone(g, c, i1)
        decreases MN - i1
      {
        i2, c := SearchStep(i1, rnode, visit, queue, graph, i2, g, seeds, old(rtable), c);
        i1 := i1 + 1;
      }
    }

    /** Everything before the search: graph, seeds, and an empty list of new routes. */
    method Prepare(db: seq<Entry>, ifaces: seq<Iface>, rnode: array<RNode>, visit: array<bool>, queue: array<nat>,
                   graph: array2<nat>)
      returns (i2: nat, ghost b: Search)
      requires rnode.Length == visit.Length == queue.Length == MN == graph.Length0 && graph.Length1 == MNBR
      requires Fits(db) && QueueFits(db, ifaces) && forall v :: 0 <= v < MN ==> !visit[v]
      modifies rnode, visit, queue, graph
      ensures i2 <= MN && GraphIn(graph, Build(db)) && HeadDone(Build(db), b, 0)
      ensures SearchState(Build(db), SeedsOf(db, ifaces), b, rnode[..], visit[..], queue[..i2], rtable, rtable)
    {
      ghost var g, seeds := Build(db), SeedsOf(db, ifaces);
      var k := BuildGraph(db, rnode, graph);
      i2 := SeedQueue(ifaces, rnode, visit, queue, k, g.nodes);
      GraphShape(db);
      SeedSearchOk(g, seeds, rnode[..], visit[..], queue[..i2]);
      b := SeedSearch(|g.nodes|, visit[..], queue[..i2]);
      assert b.queue[|seeds|..] == [];
    }

    /** update_rtable: directly connected routes survive, older gateway routes go, and exactly the
        right new ones come after them. */
    method Update(db: seq<Entry>, ifaces: seq<Iface>)
      returns (ghost order: seq<nat>, ghost src: seq<nat>, ghost dist: seq<nat>)
      requires Fits(db) && QueueFits(db, ifaces)
      modifies this
      ensures |Direct(old(rtable))| <= |rtable| && rtable[..|Direct(old(rtable))|] == Direct(old(rtable))
      ensures RoutesCorrect(Build(db), SeedsOf(db, ifaces), order, src, dist, rtable[|Direct(old(rtable))|..])
    {
      var rnode := new RNode[MN];
      var visit := new bool[MN](_ => false);
      var graph := new nat[MN, MNBR];
      var queue := new nat[MN];
      ClearGatewayRoutes();
      ghost var base := rtable;
      var i2, b := Prepare(db, ifaces, rnode, visit, queue, graph);
      ghost var c;
      i2, c := Search(rnode, visit, queue, graph, i2, Build(db), SeedsOf(db, ifaces), b);
      SearchYieldsRoutes(Build(db), SeedsOf(db, ifaces), c, rnode[..], visit[..], queue[..i2], base, rtable);
      order, src, dist := c.queue[|SeedsOf(db, ifaces)|..], c.src, c.dist;
    }
  }

  lemma GraphShape(db: seq<Entry>)
    ensures WellFormed(Build(db))
    ensures forall u: nat :: u < |Build(db).nodes| ==> Build(db).nodes[u].nadv == |Row(Build(db), u)|
  {
    BuildRowsGrow(db, |db|);
  }

  /** The first `n` queued nodes have been expanded, and what is queued is within one level of the next. */
  ghost predicate HeadDone(g: Graph, b: Search, n: nat) {
    && |b.visited| == |b.dist| && n <= |b.queue|
    && (forall j :: 0 <= j < |b.queue| ==> b.queue[j] < |b.dist|)
    && (forall j :: 0 <= j < n ==> EdgesDone(g, b, b.queue[j], |Row(g, b.queue[j])|))
    && (n < |b.queue| ==> WithinLevel(b, b.dist[b.queue[n]]))
  }

  lemma AllExpanded(g: Graph, seeds: seq<Seed>, b: Search)
    requires QueueOk(g, seeds, b) && HeadDone(g, b, |b.queue|)
    ensures forall u {:trigger EdgesDone(g, b, u, |Row(g, u)|)} :: 0 <= u < |g.nodes| && b.visited[u] ==>
      EdgesDone(g, b, u, |Row(g, u)|)
  {
    forall u: nat | u < |g.nodes| && b.visited[u] ensures EdgesDone(g, b, u, |Row(g, u)|) {
      assert Queued(b, u);
    }
  }

  lemma OrderIsCorrect(g: Graph, seeds: seq<Seed>, c: Search, added: seq<Route>)
    requires SearchOk(g, seeds, c) && RoutesFollow(g, seeds, c.queue[|seeds|..], c.src, added)
    requires forall v :: 0 <= v < |g.nodes| && c.visited[v] ==> Nearest(g, seeds, c.src[v], v, c.dist[v])
    requires forall v :: v in c.queue[|seeds|..] <==> v in Wanted(g, seeds)
    ensures RoutesCorrect(g, seeds, c.queue[|seeds|..], c.src, c.dist, added)
  {
    var order := c.queue[|seeds|..];
    forall t: nat | t < |order|
      ensures order[t] < |g.nodes| && c.visited[order[t]] && order[t] == c.queue[|seeds| + t]
    {
    }
    forall i, j | 0 <= i < j < |order| ensures order[i] != order[j] && c.dist[order[i]] <= c.dist[order[j]] {
      assert c.dist[c.queue[|seeds| + i]] <= c.dist[c.queue[|seeds| + j]];
    }
  }

  /** A search whose queue is exhausted has added the right routes. */
  lemma SearchYieldsRoutes(g: Graph, seeds: seq<Seed>, c: Search, rnode: seq<RNode>, visit: seq<bool>, queue: seq<nat>,
                           base: seq<Route>, rtable: seq<Route>)
    requires SearchState(g, seeds, c, rnode, visit, queue, base, rtable) && HeadDone(g, c, |queue|)
    ensures |base| <= |rtable| && rtable[..|base|] == base && |seeds| <= |c.queue|
    ensures RoutesCorrect(g, seeds, c.queue[|seeds|..], c.src, c.dist, rtable[|base|..])
  {
    AllExpanded(g, seeds, c);
    forall j | 0 <= j < |seeds| ensures seeds[j].node < |g.nodes| {
      assert c.queue[j] == seeds[j].node;
    }
    SearchIsComplete(g, seeds, c);
    OrderIsCorrect(g, seeds, c, rtable[|base|..]);
  }

  /** Expanding the head of the queue moves it on by one. */
  lemma HeadAdvances(g: Graph, b: Search, c: Search, n: nat)
    requires HeadDone(g, b, n) && n < |b.queue| && Later(b, c) && |c.queue| >= |b.queue|
    requires (forall j :: 0 <= j < |c.queue| ==> c.queue[j] < |c.dist|) && QueueSorted(c)
    requires forall j :: 0 <= j < |b.queue| ==> b.visited[b.queue[j]]
    requires WithinLevel(c, c.dist[b.queue[n]]) && EdgesDone(g, c, b.queue[n], |Row(g, b.queue[n])|)
    ensures HeadDone(g, c, n + 1)
  {
    assert forall j :: 0 <= j < |b.queue| ==> c.queue[j] == b.queue[j];
    forall j | 0 <= j < n ensures EdgesDone(g, c, c.queue[j], |Row(g, c.queue[j])|) {
      assert EdgesDone(g, b, b.queue[j], |Row(g, b.queue[j])|);
    }
    if n + 1 < |c.queue| {
      assert c.dist[c.queue[n]] <= c.dist[c.queue[n + 1]];
    }
  }

  lemma LaterAgain(a: Search, b: Search, c: Search)
    requires Later(a, b) && Later(b, c)
    ensures Later(a, c)
  {
  }

  /** Nothing visited is forgotten or moved. */
  ghost predicate Later(b: Search, c: Search) {
    && b.queue <= c.queue && |b.visited| == |c.visited| == |b.dist| == |c.dist|
    && forall v :: 0 <= v < |b.visited| && b.visited[v] ==> c.visited[v] && c.dist[v] == b.dist[v]
  }

  /** What the inner loop gains by visiting the target of edge `i`. */
  lemma PushProgress(g: Graph, seeds: seq<Seed>, b: Search, c: Search, u: nat, i: nat)
    requires SearchOk(g, seeds, c) && u < |g.nodes| && c.visited[u] && i < |Row(g, u)|
    requires Row(g, u)[i] < |g.nodes| && !c.visited[Row(g, u)[i]]
    requires |b.dist| == |c.dist| && u < |b.dist| && Later(b, c) && WithinLevel(c, c.dist[u]) && EdgesDone(g, c, u, i)
    ensures var d := Push(c, u, Row(g, u)[i]);
      SearchOk(g, seeds, d) && Later(b, d) && d.dist[u] == c.dist[u] && WithinLevel(d, d.dist[u])
        && EdgesDone(g, d, u, i + 1)
  {
    var w := Row(g, u)[i];
    PushKeeps(g, seeds, c, u, w);
    assert EdgesDone(g, Push(c, u, w), u, i);
  }

  lemma PushFromHere(g: Graph, seeds: seq<Seed>, b: Search, u: nat, i: nat)
    requires SearchOk(g, seeds, b) && u < |g.nodes| && b.visited[u] && i < |Row(g, u)|
    requires Row(g, u)[i] < |g.nodes| && !b.visited[Row(g, u)[i]]
    requires WithinLevel(b, b.dist[u]) && EdgesDone(g, b, u, i)
    ensures var d := Push(b, u, Row(g, u)[i]);
      && (forall j :: 0 <= j < |d.queue| ==> d.queue[j] < |d.dist|) && Later(b, d) && d.dist[u] == b.dist[u]
      && WithinLevel(d, d.dist[u]) && EdgesDone(g, d, u, i + 1)
  {
    PushProgress(g, seeds, b, b, u, i);
  }

  /** Nothing is gained by an edge to a node that has been seen. */
  lemma PassVisited(g: Graph, seeds: seq<Seed>, b: Search, rnode: seq<RNode>, visit: seq<bool>, queue: seq<nat>,
                    base: seq<Route>, rtable: seq<Route>, th: nat, i: nat)
    requires SearchState(g, seeds, b, rnode, visit, queue, base, rtable)
    requires th < |g.nodes| && b.visited[th] && WithinLevel(b, b.dist[th]) && EdgesDone(g, b, th, i)
    requires i < |Row(g, th)| && Row(g, th)[i] < |g.nodes| && |visit| > Row(g, th)[i] && visit[Row(g, th)[i]]
    ensures Later(b, b) && EdgesDone(g, b, th, i + 1)
  {
    EdgeToVisited(g, seeds, b, th, i);
  }

  /** A target seen before is at most one level further: nothing queued is beyond that. */
  lemma EdgeToVisited(g: Graph, seeds: seq<Seed>, b: Search, u: nat, i: nat)
    requires QueueOk(g, seeds, b) && u < |g.nodes| && WithinLevel(b, b.dist[u]) && EdgesDone(g, b, u, i)
    requires i < |Row(g, u)| && Row(g, u)[i] < |g.nodes| && b.visited[Row(g, u)[i]]
    ensures EdgesDone(g, b, u, i + 1)
  {
    assert Queued(b, Row(g, u)[i]);
  }
}
