/** Networks and the addresses in them (06-router/ip_base.c). */
module AddressMask {
  /** The address is in the network. */
  predicate InNet(network: bv32, mask: bv32, dst: bv32) { network & mask == dst & mask }

  lemma HasNetworkBits(network: bv32, mask: bv32, dst: bv32)
    requires InNet(network, mask, dst)
    ensures dst == (network & mask) | (dst & !mask)
  {
  }

  lemma NetworkBitsSuffice(network: bv32, mask: bv32, dst: bv32)
    requires dst == (network & mask) | (dst & !mask)
    ensures InNet(network, mask, dst)
  {
  }

  /** It has the bits of the network where the mask has ones, and any bits elsewhere. */
  lemma InNetIsPrefix(network: bv32, mask: bv32, dst: bv32)
    ensures InNet(network, mask, dst) <==> dst == (network & mask) | (dst & !mask)
  {
    if InNet(network, mask, dst) {
      HasNetworkBits(network, mask, dst);
    }
    if dst == (network & mask) | (dst & !mask) {
      NetworkBitsSuffice(network, mask, dst);
    }
  }
}

/** Which networks get a route, and forwarding by the longest matching prefix (06-router/ip_base.c) with the tables
    that update_rtable leaves. */
module MospfForwarding {
  import opened Options
  import opened AddressMask
  import opened MospfRouter
  import opened MospfNetwork
  import opened MospfFlooding
  import opened MospfGraph
  import opened MospfRoutes
  import opened MospfTopology
  import opened MospfDelivery
  import opened MospfConverged

  // ---- Which networks get a route ----

  /** Network and mask of the last of the first `n` advertisements that name the router. */
  function LastIn(lsas: seq<Lsa>, n: nat, rid: Addr): Option<(Addr, Addr)>
    requires n <= |lsas|
  {
    if n == 0 then None
    else if lsas[n - 1].rid == rid then Some((lsas[n - 1].network, lsas[n - 1].mask))
    else LastIn(lsas, n - 1, rid)
  }

  /** The same over the first `n` database entries. */
  function LastNaming(db: seq<Entry>, n: nat, rid: Addr): Option<(Addr, Addr)>
    requires n <= |db|
  {
    if n == 0 then None
    else
      var last := LastIn(db[n - 1].lsas, |db[n - 1].lsas|, rid);
      if last.Some? then last else LastNaming(db, n - 1, rid)
  }

  lemma {:induction false} AddLsasName(nodes: seq<Node>, lsas: seq<Lsa>, n: nat, l: nat)
    requires n <= |lsas| && l < |nodes|
    ensures var after := AddLsas(nodes, lsas, n).0;
      && l < |after| && after[l].rid == nodes[l].rid
      && after[l].net == if LastIn(lsas, n, nodes[l].rid).Some? then LastIn(lsas, n, nodes[l].rid) else nodes[l].net
  {
    if n > 0 {
      AddLsasName(nodes, lsas, n - 1, l);
    }
  }

  /** The network of a router's node is the last one under which any advertisement names the router. */
  lemma {:induction false} NodeNetIsLastNaming(db: seq<Entry>, n: nat, l: nat)
    requires n <= |db| && l < |db|
    ensures var nodes := BuildRows(db, n).0;
      l < |nodes| && nodes[l].rid == db[l].rid && nodes[l].net == LastNaming(db, n, db[l].rid)
  {
    if n > 0 {
      NodeNetIsLastNaming(db, n - 1, l);
      AddLsasName(BuildRows(db, n - 1).0, db[n - 1].lsas, |db[n - 1].lsas|, l);
    }
  }

  /** Exactly these networks get a gateway route: those of the nodes that can be reached from a neighbour without
      being one. A router that others reach over several transit networks has a single node, so only the network
      that was advertised last for it counts. */
  lemma NetworkHasRouteIff(db: seq<Entry>, seeds: seq<Seed>, order: seq<nat>, src: seq<nat>, dist: seq<nat>,
                           table: seq<Route>, x: Addr)
    requires RoutesCorrect(Build(db), seeds, order, src, dist, table)
    ensures (exists q :: 0 <= q < |table| && table[q].dest == x) <==>
      exists v :: v in Wanted(Build(db), seeds) && Carries(db, v, x)
  {
    var g := Build(db);
    if q :| 0 <= q < |table| && table[q].dest == x {
      var u := RouteHasEdge(g, seeds, order, src, dist, table, q);
      assert order[q] in Wanted(g, seeds);
      CarriesIff(db, order[q], x);
    }
    if v :| v in Wanted(g, seeds) && Carries(db, v, x) {
      var q := SlotInOrder(g, seeds, order, src, dist, table, v);
      CarriesIff(db, v, x);
      assert table[q].dest == x;
    }
  }

  /** The network of node `v`: for a router the last that names it, for a leaf the one it was made for. */
  predicate Carries(db: seq<Entry>, v: nat, x: Addr) {
    var nodes := Build(db).nodes;
    && v < |nodes|
    && if v < |db| then LastNaming(db, |db|, db[v].rid).Some? && LastNaming(db, |db|, db[v].rid).value.0 == x
       else nodes[v].net.Some? && nodes[v].net.value.0 == x
  }

  lemma CarriesIff(db: seq<Entry>, v: nat, x: Addr)
    requires v < |Build(db).nodes|
    ensures Carries(db, v, x) <==> Build(db).nodes[v].net.Some? && Build(db).nodes[v].net.value.0 == x
  {
    if v < |db| {
      NodeNetIsLastNaming(db, |db|, v);
    }
  }

  // ---- Longest prefix match ----

  predicate PrefixMatches(r: Route, dst: Addr) { InNet(r.dest, r.mask, dst) }

  /** Masks are compared as unsigned numbers. */
  predicate MaskLess(a: Addr, b: Addr) { (a as nat) < (b as nat) }

  /** Which routes match. */
  function Matching(rtable: seq<Route>, dst: Addr): seq<bool> {
    seq(|rtable|, k requires 0 <= k < |rtable| => PrefixMatches(rtable[k], dst))
  }

  /** Of the matching route `k` and the best so far, the one the scan keeps. */
  predicate Better(rtable: seq<Route>, k: nat, b: Option<nat>)
    requires k < |rtable| && (b.Some? ==> b.value < |rtable|)
  {
    b == None || MaskLess(rtable[b.value].mask, rtable[k].mask)
  }

  /** The scan over the first `n` routes, given which of them match. */
  function LongestOf(rtable: seq<Route>, matching: seq<bool>, n: nat): (b: Option<nat>)
    requires n <= |rtable| == |matching|
    ensures b.Some? ==> b.value < n
  {
    if n == 0 then None
    else
      var b := LongestOf(rtable, matching, n - 1);
      if matching[n - 1] && Better(rtable, n - 1, b) then Some(n - 1) else b
  }

  /** The scan of longest_prefix_match over the first `n` routes. */
  function LongestPrefix(rtable: seq<Route>, dst: Addr, n: nat): (b: Option<nat>)
    requires n <= |rtable|
    ensures b.Some? ==> b.value < n
  {
    LongestOf(rtable, Matching(rtable, dst), n)
  }

  /** Of the first `n` routes `b` matches, none that matches has a larger mask, and of those with the same mask it is
      the first; there is none exactly when no route matches. */
  ghost predicate Longest(rtable: seq<Route>, matching: seq<bool>, n: nat, b: Option<nat>)
    requires n <= |rtable| == |matching|
  {
    match b
    case None => forall k :: 0 <= k < n ==> !matching[k]
    case Some(v) =>
      && v < n && matching[v]
      && forall k {:trigger NotLonger(rtable, matching, v, k)} :: 0 <= k < n ==> NotLonger(rtable, matching, v, k)
  }

  predicate NotLonger(rtable: seq<Route>, matching: seq<bool>, v: nat, k: nat)
    requires v < |rtable| == |matching| && k < |rtable|
  {
    matching[k] ==>
      !MaskLess(rtable[v].mask, rtable[k].mask) && (k < v ==> MaskLess(rtable[k].mask, rtable[v].mask))
  }

  lemma MaskOrder(a: Addr, b: Addr, c: Addr)
    requires MaskLess(a, b) && !MaskLess(a, c)
    ensures MaskLess(c, b) && !MaskLess(b, c)
  {
  }

  /** The last route takes over. */
  lemma TakesOver(rtable: seq<Route>, matching: seq<bool>, n: nat, v: nat)
    requires 0 < n <= |rtable| == |matching| && Longest(rtable, matching, n - 1, Some(v)) && matching[n - 1]
    requires MaskLess(rtable[v].mask, rtable[n - 1].mask)
    ensures Longest(rtable, matching, n, Some(n - 1))
  {
    var last := n - 1;
    forall k | 0 <= k < n ensures NotLonger(rtable, matching, last, k) {
      if k < last && matching[k] {
        assert NotLonger(rtable, matching, v, k);
        MaskOrder(rtable[v].mask, rtable[last].mask, rtable[k].mask);
      }
    }
  }

  /** It does not. */
  lemma StaysBest(rtable: seq<Route>, matching: seq<bool>, n: nat, v: nat)
    requires 0 < n <= |rtable| == |matching| && Longest(rtable, matching, n - 1, Some(v))
    requires matching[n - 1] ==> !MaskLess(rtable[v].mask, rtable[n - 1].mask)
    ensures Longest(rtable, matching, n, Some(v))
  {
    forall k | 0 <= k < n ensures NotLonger(rtable, matching, v, k) {
      assert k < n - 1 ==> NotLonger(rtable, matching, v, k);
    }
  }

  lemma {:induction false} LongestOfIsLongest(rtable: seq<Route>, matching: seq<bool>, n: nat)
    requires n <= |rtable| == |matching|
    ensures Longest(rtable, matching, n, LongestOf(rtable, matching, n))
  {
    if n > 0 {
      LongestOfIsLongest(rtable, matching, n - 1);
      var b := LongestOf(rtable, matching, n - 1);
      if b.Some? {
        if matching[n - 1] && Better(rtable, n - 1, b) {
          TakesOver(rtable, matching, n, b.value);
        } else {
          StaysBest(rtable, matching, n, b.value);
        }
      }
    }
  }

  lemma LongestIsUnbeaten(rtable: seq<Route>, dst: Addr, n: nat)
    requires n <= |rtable|
    ensures var b := LongestPrefix(rtable, dst, n);
      && (b == None <==> forall k :: 0 <= k < n ==> !PrefixMatches(rtable[k], dst))
      && (b.Some? ==> PrefixMatches(rtable[b.value], dst))
      && (b.Some? ==> forall k :: 0 <= k < n && PrefixMatches(rtable[k], dst) ==>
            !MaskLess(rtable[b.value].mask, rtable[k].mask)
            && (k < b.value ==> MaskLess(rtable[k].mask, rtable[b.value].mask)))
  {
    var matching, b := Matching(rtable, dst), LongestPrefix(rtable, dst, n);
    LongestOfIsLongest(rtable, matching, n);
    forall k | 0 <= k < n && b.Some? && PrefixMatches(rtable[k], dst)
      ensures !MaskLess(rtable[b.value].mask, rtable[k].mask)
      ensures k < b.value ==> MaskLess(rtable[k].mask, rtable[b.value].mask)
    {
      assert matching[k] && NotLonger(rtable, matching, b.value, k);
    }
    assert forall k :: 0 <= k < n ==> matching[k] == PrefixMatches(rtable[k], dst);
  }

  /** The result matches, no matching route has a larger mask as an unsigned number, and of those with the same mask it
      is the first; there is none exactly when no route matches. */
  lemma LongestPrefixIsLongest(rtable: seq<Route>, dst: Addr, n: nat)
    requires n <= |rtable|
    ensures var b := LongestPrefix(rtable, dst, n);
      && (b == None <==> forall k :: 0 <= k < n ==> !PrefixMatches(rtable[k], dst))
      && (b.Some? ==> PrefixMatches(rtable[b.value], dst))
      && (b.Some? ==> forall k :: 0 <= k < n && PrefixMatches(rtable[k], dst) ==>
            rtable[k].mask as nat <= rtable[b.value].mask as nat
            && (k < b.value ==> rtable[k].mask as nat < rtable[b.value].mask as nat))
  {
    LongestIsUnbeaten(rtable, dst, n);
  }

  /** longest_prefix_match. */
  method LongestPrefixMatch(rtable: seq<Route>, dst: Addr) returns (best: Option<nat>)
    ensures best == LongestPrefix(rtable, dst, |rtable|)
  {
    best := None;
    for i := 0 to |rtable|
      invariant best.Some? ==> best.value < i
      invariant best == LongestPrefix(rtable, dst, i)
    {
      if PrefixMatches(rtable[i], dst) {
        if best == None || MaskLess(rtable[best.value].mask, rtable[i].mask) {
          best := Some(i);
        }
      }
    }
  }

  /** Among all advertised networks only the stub's holds the address with a mask that large. */
  ghost predicate MostSpecific(routers: seq<Router>, x: Addr, mask: Addr, dst: Addr) {
    && InNet(x, mask, dst)
    && forall j, q {:trigger Adv(routers, j)[q]} :: 0 <= j < |routers| && 0 <= q < |Adv(routers, j)| ==>
         var lsa := Adv(routers, j)[q];
         lsa.network == x || !InNet(lsa.network, lsa.mask, dst) || MaskLess(lsa.mask, mask)
  }

  /** The routes that are not update_rtable's hold the address only with a smaller mask. */
  predicate LessSpecific(direct: seq<Route>, mask: Addr, dst: Addr) {
    forall k :: 0 <= k < |direct| && PrefixMatches(direct[k], dst) ==> MaskLess(direct[k].mask, mask)
  }

  predicate DirectRoutesLess(direct: seq<seq<Route>>, t: nat, mask: Addr, dst: Addr) {
    forall i {:trigger LessSpecific(direct[i], mask, dst)} :: 0 <= i < |direct| && i != t ==>
      LessSpecific(direct[i], mask, dst)
  }

  /** Every gateway route is for an advertised network. */
  lemma RouteIsAdvertised(routers: seq<Router>, i: nat, table: seq<Route>, q: nat) returns (j: nat, p: nat)
    requires Agreed(routers) && TableOf(routers, i, table) && q < |table|
    ensures j < |routers| && p < |Adv(routers, j)|
    ensures Adv(routers, j)[p].network == table[q].dest && Adv(routers, j)[p].mask == table[q].mask
  {
    var db, g, seeds := routers[i].db, Build(routers[i].db), SeedsAt(routers[i]);
    var order, src, dist :| RoutesCorrect(g, seeds, order, src, dist, table);
    var u := RouteHasEdge(g, seeds, order, src, dist, table, q);
    assert RouteFollows(g, seeds, order[q], src, table[q]);
    BuildRowsOk(routers, i, |db|);
    assert NodeOk(routers, g.nodes, |db|, order[q]);
    j, p :| 0 <= j < |routers| && 0 <= p < |Adv(routers, j)|
      && NetFrom(g.nodes[order[q]], order[q] < |db|, Adv(routers, j)[p]);
  }

  /** Where longest prefix match sends the packet from router `i`. */
  ghost predicate PrefixForwards(routers: seq<Router>, direct: seq<seq<Route>>, tables: seq<seq<Route>>, dst: Addr,
                                 i: nat, j: nat) {
    && i < |tables| == |direct|
    && var rtable := direct[i] + tables[i];
      var b := LongestPrefix(rtable, dst, |rtable|);
      b.Some? && GatewayOf(routers, i, rtable[b.value].gw, rtable[b.value].iface, j)
  }

  /** Longest prefix match picks gateway route `q`. */
  predicate Picks(direct: seq<Route>, table: seq<Route>, dst: Addr, q: nat) {
    q < |table| && LongestPrefix(direct + table, dst, |direct + table|) == Some(|direct| + q)
  }

  lemma PickedForwards(routers: seq<Router>, direct: seq<seq<Route>>, tables: seq<seq<Route>>, dst: Addr, i: nat,
                       j: nat, q: nat)
    requires i < |tables| == |direct| && Picks(direct[i], tables[i], dst, q)
    ensures PrefixForwards(routers, direct, tables, dst, i, j) <==>
      GatewayOf(routers, i, tables[i][q].gw, tables[i][q].iface, j)
  {
    assert (direct[i] + tables[i])[|direct[i]| + q] == tables[i][q];
  }

  /** At every other router the longest match for an address of the stub is the stub's one gateway route. */
  lemma PrefixPicksStub(routers: seq<Router>, i: nat, t: nat, p: nat, x: Addr, d: nat, direct: seq<Route>,
                        table: seq<Route>, dst: Addr) returns (q: nat, j: nat)
    requires Agreed(routers) && Stub(routers, t, p, x) && i != t && Dist(routers, i, t, d) && TableOf(routers, i, table)
    requires MostSpecific(routers, x, Adv(routers, t)[p].mask, dst)
      && LessSpecific(direct, Adv(routers, t)[p].mask, dst)
    ensures Picks(direct, table, dst, q) && table[q].dest == x
    ensures GatewayOf(routers, i, table[q].gw, table[q].iface, j)
  {
    var mask := Adv(routers, t)[p].mask;
    NextHopIsCloser(routers, i, t, p, x, d, table);
    q, j :| StubRoute(routers, i, t, x, mask, table, d - 1, q, j);
    forall k | 0 <= k < |table| && k != q && PrefixMatches(table[k], dst)
      ensures MaskLess(table[k].mask, mask)
    {
      var jj, pp := RouteIsAdvertised(routers, i, table, k);
      assert Adv(routers, jj)[pp].network == table[k].dest != x;
    }
    LargestMaskWins(direct, table, mask, dst, q);
  }

  /** The route wins that matches when every other matching route has a smaller mask. */
  lemma LargestMaskWins(direct: seq<Route>, table: seq<Route>, mask: Addr, dst: Addr, q: nat)
    requires q < |table| && table[q].mask == mask && PrefixMatches(table[q], dst)
    requires LessSpecific(direct, mask, dst)
    requires forall k :: 0 <= k < |table| && k != q && PrefixMatches(table[k], dst) ==> MaskLess(table[k].mask, mask)
    ensures Picks(direct, table, dst, q)
  {
    var rtable := direct + table;
    assert rtable[|direct| + q] == table[q] && PrefixMatches(rtable[|direct| + q], dst);
    LongestIsUnbeaten(rtable, dst, |rtable|);
    assert forall k :: 0 <= k < |direct| ==> rtable[k] == direct[k];
    assert forall k :: |direct| <= k < |rtable| ==> rtable[k] == table[k - |direct|];
  }

  ghost predicate HasPrefixHop(routers: seq<Router>, direct: seq<seq<Route>>, tables: seq<seq<Route>>, dst: Addr,
                               i: nat) {
    exists j: nat :: PrefixForwards(routers, direct, tables, dst, i, j)
  }

  /** One hop of a packet on its way to router `t`. */
  ghost predicate PrefixHop(routers: seq<Router>, direct: seq<seq<Route>>, tables: seq<seq<Route>>, dst: Addr, t: nat,
                            i: nat, j: nat) {
    i != t && PrefixForwards(routers, direct, tables, dst, i, j)
  }

  ghost predicate PrefixForwarding(routers: seq<Router>, direct: seq<seq<Route>>, tables: seq<seq<Route>>, dst: Addr,
                                   t: nat, path: seq<nat>) {
    forall a, b {:trigger PrefixHop(routers, direct, tables, dst, t, path[a], path[b])} ::
      0 <= a < |path| && 0 <= b < |path| && b == a + 1 ==> PrefixHop(routers, direct, tables, dst, t, path[a], path[b])
  }

  /** One hop by longest prefix match is one hop by the stub's route. */
  lemma PrefixHopIsStubHop(routers: seq<Router>, direct: seq<seq<Route>>, tables: seq<seq<Route>>, t: nat, p: nat,
                           x: Addr, d: nat, dst: Addr, i: nat, j: nat)
    requires Agreed(routers) && Stub(routers, t, p, x) && TablesOf(routers, tables) && |direct| == |routers|
    requires MostSpecific(routers, x, Adv(routers, t)[p].mask, dst)
    requires i < |routers| && i != t && Dist(routers, i, t, d) && LessSpecific(direct[i], Adv(routers, t)[p].mask, dst)
    requires PrefixForwards(routers, direct, tables, dst, i, j)
    ensures Forwards(routers, tables, x, i, j)
  {
    assert TableOf(routers, i, tables[i]);
    var q, k := PrefixPicksStub(routers, i, t, p, x, d, direct[i], tables[i], dst);
    PickedForwards(routers, direct, tables, dst, i, j, q);
  }

  lemma PrefixHopExists(routers: seq<Router>, direct: seq<seq<Route>>, tables: seq<seq<Route>>, t: nat, p: nat, x: Addr,
                        d: nat, dst: Addr, i: nat)
    requires Agreed(routers) && Stub(routers, t, p, x) && TablesOf(routers, tables) && |direct| == |routers|
    requires MostSpecific(routers, x, Adv(routers, t)[p].mask, dst)
    requires i < |routers| && i != t && Dist(routers, i, t, d) && LessSpecific(direct[i], Adv(routers, t)[p].mask, dst)
    ensures HasPrefixHop(routers, direct, tables, dst, i)
  {
    assert TableOf(routers, i, tables[i]);
    var q, j := PrefixPicksStub(routers, i, t, p, x, d, direct[i], tables[i], dst);
    PickedForwards(routers, direct, tables, dst, i, j, q);
  }

  /** What longest prefix match needs to deliver packets for an address of the stub. */
  ghost predicate Routed(routers: seq<Router>, direct: seq<seq<Route>>, tables: seq<seq<Route>>, t: nat, p: nat,
                         x: Addr, dst: Addr) {
    && Agreed(routers) && Stub(routers, t, p, x) && TablesOf(routers, tables) && |direct| == |routers|
    && MostSpecific(routers, x, Adv(routers, t)[p].mask, dst)
      && DirectRoutesLess(direct, t, Adv(routers, t)[p].mask, dst)
  }

  lemma PrefixHopIsCloser(routers: seq<Router>, direct: seq<seq<Route>>, tables: seq<seq<Route>>, t: nat, p: nat,
                          x: Addr, dst: Addr, d: int, i: nat, j: nat)
    requires Routed(routers, direct, tables, t, p, x, dst) && Away(routers, i, t, d)
    requires PrefixHop(routers, direct, tables, dst, t, i, j)
    ensures Away(routers, j, t, d - 1)
  {
    assert LessSpecific(direct[i], Adv(routers, t)[p].mask, dst);
    PrefixHopIsStubHop(routers, direct, tables, t, p, x, d, dst, i, j);
    HopIsCloser(routers, tables, t, p, x, d, i, j);
  }

  /** Every hop on the way to router `t` is one closer. */
  ghost predicate HopsAreCloser(routers: seq<Router>, direct: seq<seq<Route>>, tables: seq<seq<Route>>, dst: Addr,
                                t: nat) {
    forall i: nat, j: nat, d: int
      {:trigger Away(routers, i, t, d), PrefixHop(routers, direct, tables, dst, t, i, j)} ::
      Away(routers, i, t, d) && PrefixHop(routers, direct, tables, dst, t, i, j) ==> Away(routers, j, t, d - 1)
  }

  lemma RoutedHopsAreCloser(routers: seq<Router>, direct: seq<seq<Route>>, tables: seq<seq<Route>>, t: nat, p: nat,
                            x: Addr, dst: Addr)
    requires Routed(routers, direct, tables, t, p, x, dst)
    ensures HopsAreCloser(routers, direct, tables, dst, t)
  {
    forall i: nat, j: nat, d: int | Away(routers, i, t, d) && PrefixHop(routers, direct, tables, dst, t, i, j)
      ensures Away(routers, j, t, d - 1)
    {
      PrefixHopIsCloser(routers, direct, tables, t, p, x, dst, d, i, j);
    }
  }

  lemma {:induction false} PrefixPathCountsDown(routers: seq<Router>, direct: seq<seq<Route>>, tables: seq<seq<Route>>,
                                                dst: Addr, t: nat, path: seq<nat>, d: int, n: nat)
    requires HopsAreCloser(routers, direct, tables, dst, t) && PrefixForwarding(routers, direct, tables, dst, t, path)
    requires n < |path| && Away(routers, path[0], t, d)
    ensures Away(routers, path[n], t, d - n)
  {
    if n > 0 {
      PrefixPathCountsDown(routers, direct, tables, dst, t, path, d, n - 1);
      assert PrefixHop(routers, direct, tables, dst, t, path[n - 1], path[n]);
    }
  }

  /** Where a path that counts down stands, and when it has arrived. */
  lemma PrefixPathEnds(routers: seq<Router>, direct: seq<seq<Route>>, tables: seq<seq<Route>>, dst: Addr, t: nat,
                       path: seq<nat>, d: nat)
    requires HopsAreCloser(routers, direct, tables, dst, t) && PrefixForwarding(routers, direct, tables, dst, t, path)
    requires |path| > 0 && Away(routers, path[0], t, d)
    ensures Away(routers, path[|path| - 1], t, d - (|path| - 1))
    ensures path[|path| - 1] == t <==> |path| - 1 == d
  {
    PrefixPathCountsDown(routers, direct, tables, dst, t, path, d, |path| - 1);
    DistZero(routers, path[|path| - 1], t, d - (|path| - 1));
  }

  lemma RoutedHasHop(routers: seq<Router>, direct: seq<seq<Route>>, tables: seq<seq<Route>>, t: nat, p: nat, x: Addr,
                     dst: Addr, d: int, i: nat)
    requires Routed(routers, direct, tables, t, p, x, dst) && Away(routers, i, t, d) && i != t
    ensures HasPrefixHop(routers, direct, tables, dst, i)
  {
    assert LessSpecific(direct[i], Adv(routers, t)[p].mask, dst);
    PrefixHopExists(routers, direct, tables, t, p, x, d, dst, i);
  }

  /** Every hop by longest prefix match on the way to the stub's router is one closer; the packet arrives after
      exactly the distance and always has a next hop before. */
  lemma PrefixDelivers(routers: seq<Router>, direct: seq<seq<Route>>, tables: seq<seq<Route>>, t: nat, p: nat, x: Addr,
                       dst: Addr, path: seq<nat>, d: nat)
    requires Routed(routers, direct, tables, t, p, x, dst)
    requires |path| > 0 && path[0] < |routers| && Dist(routers, path[0], t, d)
    requires PrefixForwarding(routers, direct, tables, dst, t, path)
    ensures |path| - 1 <= d && path[|path| - 1] < |routers|
    ensures Dist(routers, path[|path| - 1], t, d - (|path| - 1))
    ensures path[|path| - 1] == t <==> |path| - 1 == d
    ensures path[|path| - 1] != t ==> HasPrefixHop(routers, direct, tables, dst, path[|path| - 1])
  {
    assert Away(routers, path[0], t, d);
    RoutedHopsAreCloser(routers, direct, tables, t, p, x, dst);
    PrefixPathEnds(routers, direct, tables, dst, t, path, d);
    if path[|path| - 1] != t {
      RoutedHasHop(routers, direct, tables, t, p, x, dst, d - (|path| - 1), path[|path| - 1]);
    }
  }

  /** From flooding to forwarding: after any run that has come to rest, a packet for an address of a stub network,
      forwarded by longest prefix match, takes a shortest path. */
  lemma ForwardedAfterFlooding(states: seq<Net>, events: seq<Event>, s: nat, direct: seq<seq<Route>>,
                               tables: seq<seq<Route>>, t: nat, p: nat, x: Addr, dst: Addr, path: seq<nat>, d: nat)
    requires ReliableRun(states, events) && s < |states| && Quiet(states[s]) && SoundTopology(states[s].routers)
    requires Stub(states[s].routers, t, p, x) && TablesOf(states[s].routers, tables) && |direct| == |states[s].routers|
    requires MostSpecific(states[s].routers, x, Adv(states[s].routers, t)[p].mask, dst)
    requires DirectRoutesLess(direct, t, Adv(states[s].routers, t)[p].mask, dst)
    requires |path| > 0 && path[0] < |states[s].routers| && Dist(states[s].routers, path[0], t, d)
    requires PrefixForwarding(states[s].routers, direct, tables, dst, t, path)
    ensures |path| - 1 <= d && path[|path| - 1] < |states[s].routers|
    ensures Dist(states[s].routers, path[|path| - 1], t, d - (|path| - 1))
    ensures path[|path| - 1] == t <==> |path| - 1 == d
    ensures path[|path| - 1] != t ==> HasPrefixHop(states[s].routers, direct, tables, dst, path[|path| - 1])
  {
    QuietMeansAgreed(states, events, s);
    PrefixDelivers(states[s].routers, direct, tables, t, p, x, dst, path, d);
  }
}
