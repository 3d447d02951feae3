/** Hop-by-hop delivery: the routing tables that agreeing databases give rise to, computed at each
    router on its own, lead every packet for a stub network along a shortest path. */
module MospfDelivery {
  import opened MospfRouter
  import opened MospfGraph
  import opened MospfRoutes
  import opened MospfTopology

  // ---- Paths in the topology and paths in the graph ----

  ghost predicate Path(routers: seq<Router>, i: nat, j: nat, n: nat)
    decreases n
  {
    if n == 0 then i == j else exists u: nat :: Path(routers, i, u, n - 1) && Linked(routers, u, j)
  }

  /** `t` is `d` links away from `i` and no fewer. */
  ghost predicate Dist(routers: seq<Router>, i: nat, t: nat, d: nat) {
    Path(routers, i, t, d) && forall m: nat :: Path(routers, i, t, m) ==> d <= m
  }

  lemma {:induction false} PathPrepend(routers: seq<Router>, i: nat, s: nat, j: nat, n: nat)
    requires Linked(routers, i, s) && Path(routers, s, j, n)
    ensures Path(routers, i, j, n + 1)
    decreases n
  {
    if n == 0 {
      assert Path(routers, i, i, 0);
    } else {
      var u: nat :| Path(routers, s, u, n - 1) && Linked(routers, u, j);
      PathPrepend(routers, i, s, u, n - 1);
    }
  }

  /** A path in the graph between stored routers is a path in the topology. */
  lemma {:induction false} ReachIsPath(routers: seq<Router>, i: nat, own: seq<nat>, g: Graph, seeds: seq<Seed>, s: nat,
                                       v: nat, n: nat)
    requires Mirrors(routers, i, own, g, seeds) && s < |own| && v < |own| && Reach(g, s, v, n)
    ensures Path(routers, own[s], own[v], n)
    decreases n
  {
    if n > 0 {
      var u: nat :| Reach(g, s, u, n - 1) && v in Row(g, u);
      assert EdgeOk(routers, own, g, u, v);
      ReachIsPath(routers, i, own, g, seeds, s, u, n - 1);
    }
  }

  /** A path in the topology to another router gives a shorter path in the graph from some neighbour. */
  lemma {:induction false} PathIsReach(routers: seq<Router>, i: nat, own: seq<nat>, g: Graph, seeds: seq<Seed>, v: nat,
                                       n: nat)
      returns (s: nat, m: nat)
    requires Mirrors(routers, i, own, g, seeds) && v < |own| && Path(routers, i, own[v], n)
    ensures m < n && IsSeed(seeds, s) && Reach(g, s, v, m)
    decreases n
  {
    var u: nat :| Path(routers, i, u, n - 1) && Linked(routers, u, own[v]);
    if u == i {
      assert SeedOk(routers, i, own, seeds, v);
      s, m := v, 0;
    } else {
      assert u in own;
      var w: nat :| w < |own| && own[w] == u;
      s, m := PathIsReach(routers, i, own, g, seeds, w, n - 1);
      assert LinkOk(routers, own, g, w, v);
      ReachStep(g, s, w, m, v);
      m := m + 1;
    }
  }

  // ---- One hop ----

  /** A path to the stub's router makes the leaf reachable from a seed, no further away. */
  lemma LeafWithin(routers: seq<Router>, i: nat, own: seq<nat>, g: Graph, seeds: seq<Seed>, t: nat, x: Addr, mask: Addr,
                   d: nat, k: nat, leaf: nat)
      returns (m: nat)
    requires Mirrors(routers, i, own, g, seeds) && LeafAt(own, g, t, x, mask, k, leaf) && Path(routers, i, t, d)
    ensures m <= d && ReachedFrom(g, seeds, leaf, m) && leaf in Wanted(g, seeds)
  {
    var s, n := PathIsReach(routers, i, own, g, seeds, k, d);
    ReachStep(g, s, k, n, leaf);
    m := n + 1;
    assert ReachedFrom(g, seeds, leaf, m);
    assert SeedOk(routers, i, own, seeds, leaf);
    assert !IsSeed(seeds, leaf);
  }

  /** Reaching the leaf from a seed means reaching the stub's router from that neighbour, one hop earlier. */
  lemma LeafThrough(routers: seq<Router>, i: nat, own: seq<nat>, g: Graph, seeds: seq<Seed>, t: nat, p: nat, x: Addr,
                    mask: Addr, k: nat, leaf: nat, s: nat, n: nat)
    requires Mirrors(routers, i, own, g, seeds) && LeafAt(own, g, t, x, mask, k, leaf) && StubEdges(own, g, t, p, x)
    requires IsSeed(seeds, s) && Reach(g, s, leaf, n)
    ensures n > 0 && s < |own| && Linked(routers, i, own[s]) && Path(routers, own[s], t, n - 1)
    ensures GatewayOf(routers, i, LastSeed(seeds, s).gw, LastSeed(seeds, s).iface, own[s])
  {
    assert SeedOk(routers, i, own, seeds, s);
    assert n != 0;
    var u: nat :| Reach(g, s, u, n - 1) && leaf in Row(g, u);
    assert StubEdge(own, g, t, p, x, u, leaf);
    ReachIsPath(routers, i, own, g, seeds, s, u, n - 1);
  }

  /** A neighbour from which the target is no further than d - 1 is exactly one hop closer. */
  lemma CloserNeighbour(routers: seq<Router>, i: nat, j: nat, t: nat, d: nat, n: nat)
    requires Linked(routers, i, j) && Dist(routers, i, t, d) && 0 < n <= d && Path(routers, j, t, n - 1)
    ensures n == d && Dist(routers, j, t, d - 1)
  {
    PathPrepend(routers, i, j, t, n - 1);
    forall q: nat | Path(routers, j, t, q) ensures d - 1 <= q {
      PathPrepend(routers, i, j, t, q);
    }
  }

  /** The nearest seed of the stub's leaf stands for a neighbour exactly one hop closer. */
  lemma NearestSeedIsCloser(routers: seq<Router>, i: nat, own: seq<nat>, g: Graph, seeds: seq<Seed>, t: nat, p: nat,
                            x: Addr, mask: Addr, d: nat, k: nat, leaf: nat, s: nat, n: nat)
    requires Mirrors(routers, i, own, g, seeds) && LeafAt(own, g, t, x, mask, k, leaf) && StubEdges(own, g, t, p, x)
    requires Dist(routers, i, t, d) && Nearest(g, seeds, s, leaf, n)
    ensures d > 0 && s < |own| && Dist(routers, own[s], t, d - 1)
    ensures GatewayOf(routers, i, LastSeed(seeds, s).gw, LastSeed(seeds, s).iface, own[s])
  {
    var m := LeafWithin(routers, i, own, g, seeds, t, x, mask, d, k, leaf);
    LeafThrough(routers, i, own, g, seeds, t, p, x, mask, k, leaf, s, n);
    CloserNeighbour(routers, i, own[s], t, d, n);
  }

  function SeedsAt(r: Router): seq<Seed> {
    SeedsOf(r.db, r.ifaces)
  }

  /** Gateway routes that update_rtable may compute at router `i`. */
  ghost predicate TableOf(routers: seq<Router>, i: nat, table: seq<Route>) {
    && i < |routers|
    && exists order, src, dist :: RoutesCorrect(Build(routers[i].db), SeedsAt(routers[i]), order, src, dist, table)
  }

  /** Exactly one gateway route at router `i` is for the stub network; its mask is the advertised
      one, and its gateway is a router at distance `d` from the stub's router. */
  ghost predicate StubRoute(routers: seq<Router>, i: nat, t: nat, x: Addr, mask: Addr, table: seq<Route>, d: nat,
                            q: nat, j: nat) {
    && q < |table| && table[q].dest == x && table[q].mask == mask
    && (forall q' :: 0 <= q' < |table| && table[q'].dest == x ==> q' == q)
    && GatewayOf(routers, i, table[q].gw, table[q].iface, j) && Dist(routers, j, t, d)
  }

  ghost predicate HasStubRoute(routers: seq<Router>, i: nat, t: nat, x: Addr, mask: Addr, table: seq<Route>, d: nat) {
    exists q: nat, j: nat :: StubRoute(routers, i, t, x, mask, table, d, q, j)
  }

  /** A wanted node has its route, through the seed it was reached from. */
  lemma SlotInOrder(g: Graph, seeds: seq<Seed>, order: seq<nat>, src: seq<nat>, dist: seq<nat>, table: seq<Route>,
                    v: nat) returns (q: nat)
    requires RoutesCorrect(g, seeds, order, src, dist, table) && v in Wanted(g, seeds)
    ensures q < |table| == |order| && order[q] == v && v < |g.nodes| && g.nodes[v].net.Some? && IsSeed(seeds, src[v])
    ensures table[q] == RouteTo(g.nodes[v], LastSeed(seeds, src[v]))
    ensures Nearest(g, seeds, src[v], v, dist[v])
  {
    assert v in order;
    q :| q < |order| && order[q] == v;
    assert RouteFollows(g, seeds, order[q], src, table[q]);
  }

  /** A route is for a node that some edge leads to. */
  lemma RouteHasEdge(g: Graph, seeds: seq<Seed>, order: seq<nat>, src: seq<nat>, dist: seq<nat>, table: seq<Route>,
                     q: nat) returns (u: nat)
    requires RoutesCorrect(g, seeds, order, src, dist, table) && q < |table|
    ensures q < |order| && order[q] < |g.nodes| && order[q] in Row(g, u)
    ensures g.nodes[order[q]].net.Some? && g.nodes[order[q]].net.value.0 == table[q].dest
  {
    var v := order[q];
    assert RouteFollows(g, seeds, order[q], src, table[q]);
    assert v in Wanted(g, seeds);
    var n: nat :| ReachedFrom(g, seeds, v, n);
    var s: nat :| IsSeed(seeds, s) && Reach(g, s, v, n);
    assert n != 0;
    u :| Reach(g, s, u, n - 1) && v in Row(g, u);
  }

  /** The routes of one table for the stub network, given what the graph looks like. */
  lemma TableHasStubRoute(routers: seq<Router>, i: nat, own: seq<nat>, g: Graph, seeds: seq<Seed>, t: nat, p: nat,
                          x: Addr, mask: Addr,
                          d: nat, k: nat, leaf: nat, order: seq<nat>, src: seq<nat>, dist: seq<nat>, table: seq<Route>)
    requires Mirrors(routers, i, own, g, seeds) && LeafAt(own, g, t, x, mask, k, leaf) && StubEdges(own, g, t, p, x)
    requires Dist(routers, i, t, d) && RoutesCorrect(g, seeds, order, src, dist, table)
    ensures d > 0 && HasStubRoute(routers, i, t, x, mask, table, d - 1)
  {
    var m := LeafWithin(routers, i, own, g, seeds, t, x, mask, d, k, leaf);
    var q := SlotInOrder(g, seeds, order, src, dist, table, leaf);
    NearestSeedIsCloser(routers, i, own, g, seeds, t, p, x, mask, d, k, leaf, src[leaf], dist[leaf]);
    assert StubEdge(own, g, t, p, x, k, leaf);
    forall q' | 0 <= q' < |table| && table[q'].dest == x ensures q' == q {
      var u := RouteHasEdge(g, seeds, order, src, dist, table, q');
      assert StubEdge(own, g, t, p, x, u, order[q']);
      assert order[q'] == order[q];
    }
    assert StubRoute(routers, i, t, x, mask, table, d - 1, q, own[src[leaf]]);
  }

  /** One hop: every router other than the stub's own has exactly one route for the network, and its
      gateway is exactly one hop closer. */
  lemma NextHopIsCloser(routers: seq<Router>, i: nat, t: nat, p: nat, x: Addr, d: nat, table: seq<Route>)
    requires Agreed(routers) && Stub(routers, t, p, x) && i != t && Dist(routers, i, t, d) && TableOf(routers, i, table)
    ensures d > 0 && HasStubRoute(routers, i, t, x, Adv(routers, t)[p].mask, table, d - 1)
  {
    var g, seeds := Build(routers[i].db), SeedsAt(routers[i]);
    var order, src, dist :| RoutesCorrect(g, seeds, order, src, dist, table);
    var own := GraphMirrors(routers, i);
    var k, leaf := StubLeaf(routers, i, own, t, p, x);
    forall u: nat, v: nat ensures StubEdge(own, g, t, p, x, u, v) {
      StubEdgeHolds(routers, i, own, t, p, x, u, v);
    }
    TableHasStubRoute(routers, i, own, g, seeds, t, p, x, Adv(routers, t)[p].mask, d, k, leaf, order, src, dist, table);
  }

  /** The stub's own router has no gateway route for its network: there it is directly connected. */
  lemma NoRouteAtStub(routers: seq<Router>, t: nat, p: nat, x: Addr, table: seq<Route>, q: nat)
    requires Agreed(routers) && Stub(routers, t, p, x) && TableOf(routers, t, table) && q < |table|
    ensures table[q].dest != x
  {
    var g, seeds := Build(routers[t].db), SeedsAt(routers[t]);
    var order, src, dist :| RoutesCorrect(g, seeds, order, src, dist, table);
    var own := OwnersExist(routers, t);
    var u := RouteHasEdge(g, seeds, order, src, dist, table, q);
    StubEdgeHolds(routers, t, own, t, p, x, u, order[q]);
  }

  // ---- All hops ----

  /** Router `j` is the next hop for the network at router `i`. */
  ghost predicate Forwards(routers: seq<Router>, tables: seq<seq<Route>>, x: Addr, i: nat, j: nat) {
    && i < |tables|
    && exists q ::
      0 <= q < |tables[i]| && tables[i][q].dest == x && GatewayOf(routers, i, tables[i][q].gw, tables[i][q].iface, j)
  }

  ghost predicate Forwarding(routers: seq<Router>, tables: seq<seq<Route>>, x: Addr, path: seq<nat>) {
    forall a, b {:trigger Forwards(routers, tables, x, path[a], path[b])} ::
      0 <= a < |path| && 0 <= b < |path| && b == a + 1 ==> Forwards(routers, tables, x, path[a], path[b])
  }

  ghost predicate HasNextHop(routers: seq<Router>, tables: seq<seq<Route>>, x: Addr, i: nat) {
    exists j: nat :: Forwards(routers, tables, x, i, j)
  }

  ghost predicate TablesOf(routers: seq<Router>, tables: seq<seq<Route>>) {
    |tables| == |routers| && forall i {:trigger TableOf(routers, i, tables[i])} :: 0 <= i < |routers| ==>
      TableOf(routers, i, tables[i])
  }

  lemma HopIsCloser(routers: seq<Router>, tables: seq<seq<Route>>, t: nat, p: nat, x: Addr, d: nat, i: nat, j: nat)
    requires Agreed(routers) && Stub(routers, t, p, x) && TablesOf(routers, tables)
    requires Dist(routers, i, t, d) && Forwards(routers, tables, x, i, j)
    ensures i != t && d > 0 && j < |routers| && Dist(routers, j, t, d - 1)
  {
    assert TableOf(routers, i, tables[i]);
    var q: nat :| q < |tables[i]| && tables[i][q].dest == x
      && GatewayOf(routers, i, tables[i][q].gw, tables[i][q].iface, j);
    if i == t {
      NoRouteAtStub(routers, t, p, x, tables[t], q);
    }
    NextHopIsCloser(routers, i, t, p, x, d, tables[i]);
    var q': nat, j': nat :| StubRoute(routers, i, t, x, Adv(routers, t)[p].mask, tables[i], d - 1, q', j');
    GatewayIsUnique(routers, i, tables[i][q].gw, tables[i][q].iface, j, j');
  }

  lemma NeverStuck(routers: seq<Router>, tables: seq<seq<Route>>, t: nat, p: nat, x: Addr, d: nat, i: nat)
    requires Agreed(routers) && Stub(routers, t, p, x) && TablesOf(routers, tables)
    requires i < |routers| && Dist(routers, i, t, d) && i != t
    ensures HasNextHop(routers, tables, x, i)
  {
    assert TableOf(routers, i, tables[i]);
    NextHopIsCloser(routers, i, t, p, x, d, tables[i]);
    var q: nat, j: nat :| StubRoute(routers, i, t, x, Adv(routers, t)[p].mask, tables[i], d - 1, q, j);
    assert Forwards(routers, tables, x, i, j);
  }

  lemma DistZero(routers: seq<Router>, i: nat, t: nat, d: nat)
    requires Dist(routers, i, t, d)
    ensures i == t <==> d == 0
  {
    if i == t {
      assert Path(routers, i, t, 0);
    }
  }

  /** Router `i` is `d` links away from router `t`. */
  ghost predicate Away(routers: seq<Router>, i: nat, t: nat, d: int) {
    d >= 0 && i < |routers| && Dist(routers, i, t, d)
  }

  /** Every hop on the way to router `t` is one closer. */
  ghost predicate TableHopsAreCloser(routers: seq<Router>, tables: seq<seq<Route>>, x: Addr, t: nat) {
    forall i: nat, j: nat, d: int {:trigger Away(routers, i, t, d), Forwards(routers, tables, x, i, j)} ::
      Away(routers, i, t, d) && Forwards(routers, tables, x, i, j) ==> Away(routers, j, t, d - 1)
  }

  lemma EachHopIsCloser(routers: seq<Router>, tables: seq<seq<Route>>, t: nat, p: nat, x: Addr)
    requires Agreed(routers) && Stub(routers, t, p, x) && TablesOf(routers, tables)
    ensures TableHopsAreCloser(routers, tables, x, t)
  {
    forall i: nat, j: nat, d: int | Away(routers, i, t, d) && Forwards(routers, tables, x, i, j)
      ensures Away(routers, j, t, d - 1)
    {
      HopIsCloser(routers, tables, t, p, x, d, i, j);
    }
  }

  lemma {:induction false} PathCountsDown(routers: seq<Router>, tables: seq<seq<Route>>, x: Addr, t: nat,
                                          path: seq<nat>, d: int, n: nat)
    requires TableHopsAreCloser(routers, tables, x, t) && Forwarding(routers, tables, x, path)
    requires n < |path| && Away(routers, path[0], t, d)
    ensures Away(routers, path[n], t, d - n)
  {
    if n > 0 {
      PathCountsDown(routers, tables, x, t, path, d, n - 1);
      assert Forwards(routers, tables, x, path[n - 1], path[n]);
    }
  }

  /** Where a path that counts down stands, and when it has arrived. */
  lemma PathEnds(routers: seq<Router>, tables: seq<seq<Route>>, x: Addr, t: nat, path: seq<nat>, d: nat)
    requires TableHopsAreCloser(routers, tables, x, t) && Forwarding(routers, tables, x, path)
    requires |path| > 0 && Away(routers, path[0], t, d)
    ensures Away(routers, path[|path| - 1], t, d - (|path| - 1))
    ensures path[|path| - 1] == t <==> |path| - 1 == d
  {
    PathCountsDown(routers, tables, x, t, path, d, |path| - 1);
    DistZero(routers, path[|path| - 1], t, d - (|path| - 1));
  }

  /** Hop-by-hop delivery: each hop of a packet for the stub network is one closer to its router, so
      after `n` hops exactly d - n remain: the packet is delivered after exactly d hops, without
      visiting any router twice, and it is never stuck on the way. */
  lemma DeliveredInShortestHops(routers: seq<Router>, tables: seq<seq<Route>>, t: nat, p: nat, x: Addr, path: seq<nat>,
                                d: nat)
    requires Agreed(routers) && Stub(routers, t, p, x) && TablesOf(routers, tables)
    requires |path| > 0 && Dist(routers, path[0], t, d) && path[0] < |routers| && Forwarding(routers, tables, x, path)
    ensures |path| - 1 <= d && path[|path| - 1] < |routers|
    ensures Dist(routers, path[|path| - 1], t, d - (|path| - 1))
    ensures path[|path| - 1] == t <==> |path| - 1 == d
    ensures path[|path| - 1] != t ==> HasNextHop(routers, tables, x, path[|path| - 1])
  {
    var n := |path| - 1;
    assert Away(routers, path[0], t, d);
    EachHopIsCloser(routers, tables, t, p, x);
    PathEnds(routers, tables, x, t, path, d);
    if path[n] != t {
      NeverStuck(routers, tables, t, p, x, d - n, path[n]);
    }
  }
}
