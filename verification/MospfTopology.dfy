/** What the graph built at one router says about the topology, when all databases agree and mirror
    symmetric neighbour lists (07-mospf/mospf_daemon.c). */
module MospfTopology {
  import opened Options
  import opened Pigeonhole
  import opened MospfRouter
  import opened MospfNetwork
  import opened MospfGraph

  function Adv(routers: seq<Router>, j: nat): seq<Lsa>
    requires j < |routers|
  {
    Advertise(routers[j].ifaces, |routers[j].ifaces|)
  }

  ghost predicate Linked(routers: seq<Router>, i: nat, j: nat) {
    i < |routers| && j < |routers| && IsNeighbour(routers[i].ifaces, routers[j].rid)
  }

  /** The entry of router `j` in a database. */
  ghost predicate EntryOf(routers: seq<Router>, db: seq<Entry>, k: nat, j: nat) {
    k < |db| && j < |routers| && db[k].rid == routers[j].rid && db[k].lsas == Adv(routers, j)
  }

  ghost predicate Known(routers: seq<Router>, i: nat, k: nat)
    requires i < |routers|
  {
    exists j: nat :: j != i && EntryOf(routers, routers[i].db, k, j)
  }

  ghost predicate Stored(routers: seq<Router>, i: nat, j: nat)
    requires i < |routers|
  {
    exists k: nat :: EntryOf(routers, routers[i].db, k, j)
  }

  /** Router `i` stores every other router's current advertisements and nothing else. */
  ghost predicate Synchronized(routers: seq<Router>, i: nat)
    requires i < |routers|
  {
    && UniqueOrigins(routers[i].db)
    && (forall k {:trigger Known(routers, i, k)} :: 0 <= k < |routers[i].db| ==> Known(routers, i, k))
    && (forall j {:trigger Stored(routers, i, j)} :: 0 <= j < |routers| && j != i ==> Stored(routers, i, j))
  }

  /** Networks are never 0 and never equal to a router id, so leaves are not mistaken for routers. */
  ghost predicate CleanLsa(routers: seq<Router>, lsa: Lsa) {
    lsa.network != 0 && forall i {:trigger routers[i]} :: 0 <= i < |routers| ==> lsa.network != routers[i].rid
  }

  ghost predicate CleanNeighbours(routers: seq<Router>, i: nat)
    requires i < |routers|
  {
    forall a, b :: 0 <= a < |routers[i].ifaces| && 0 <= b < |routers[i].ifaces[a].nbrs| ==>
      exists j: nat :: j < |routers| && j != i && routers[i].ifaces[a].nbrs[b].id == routers[j].rid
  }

  /** On one interface an address belongs to one neighbour. */
  ghost predicate DistinctAddresses(routers: seq<Router>, i: nat)
    requires i < |routers|
  {
    forall a, b, c :: 0 <= a < |routers[i].ifaces| && 0 <= b < c < |routers[i].ifaces[a].nbrs| ==>
      routers[i].ifaces[a].nbrs[b].ip != routers[i].ifaces[a].nbrs[c].ip
  }

  ghost predicate Agreed(routers: seq<Router>) {
    && DistinctRids(routers)
    && (forall i :: 0 <= i < |routers| ==> routers[i].rid != 0)
    && (forall i, j {:trigger Linked(routers, i, j)} :: Linked(routers, i, j) ==> Linked(routers, j, i))
    && (forall i {:trigger Synchronized(routers, i)} :: 0 <= i < |routers| ==> Synchronized(routers, i))
    && (forall i {:trigger CleanNeighbours(routers, i)} :: 0 <= i < |routers| ==> CleanNeighbours(routers, i))
    && (forall i {:trigger DistinctAddresses(routers, i)} :: 0 <= i < |routers| ==> DistinctAddresses(routers, i))
    && (forall j, p {:trigger Adv(routers, j)[p]} :: 0 <= j < |routers| && 0 <= p < |Adv(routers, j)| ==>
      CleanLsa(routers, Adv(routers, j)[p]))
  }

  /** `t` alone advertises the network `x`, once, as one without neighbours. */
  ghost predicate Stub(routers: seq<Router>, t: nat, p: nat, x: Addr) {
    && t < |routers| && p < |Adv(routers, t)| && Adv(routers, t)[p].rid == 0 && Adv(routers, t)[p].network == x
    && (forall j, q {:trigger Adv(routers, j)[q]} ::
          0 <= j < |routers| && 0 <= q < |Adv(routers, j)| && Adv(routers, j)[q].network == x ==> j == t && q == p)
  }

  // ---- What a router advertises ----

  /** An advertisement names a neighbour, or has router id 0. */
  lemma {:induction false} AdvertisedAreNeighbours(ifaces: seq<Iface>, n: nat, p: nat)
    requires n <= |ifaces| && p < |Advertise(ifaces, n)|
    ensures Advertise(ifaces, n)[p].rid == 0 || IsNeighbour(ifaces, Advertise(ifaces, n)[p].rid)
  {
    var before := Advertise(ifaces, n - 1);
    if p < |before| {
      AdvertisedAreNeighbours(ifaces, n - 1, p);
    } else {
      var iface := ifaces[n - 1];
      if iface.nbrs != [] {
        assert iface.nbrs[p - |before|].id == Advertise(ifaces, n)[p].rid;
      }
    }
  }

  lemma {:induction false} NeighboursAreAdvertised(ifaces: seq<Iface>, n: nat, a: nat, b: nat) returns (p: nat)
    requires a < n <= |ifaces| && b < |ifaces[a].nbrs|
    ensures p < |Advertise(ifaces, n)| && Advertise(ifaces, n)[p].rid == ifaces[a].nbrs[b].id
  {
    if a == n - 1 {
      p := |Advertise(ifaces, n - 1)| + b;
    } else {
      p := NeighboursAreAdvertised(ifaces, n - 1, a, b);
    }
  }

  // ---- The graph at one router ----

  /** Node `v` takes its network from some LSA that names it, or that it was created for. */
  ghost predicate NetFrom(node: Node, isRouter: bool, lsa: Lsa) {
    node.net == Some((lsa.network, lsa.mask)) && (isRouter ==> lsa.rid == node.rid)
  }

  /** The node takes its network from an LSA; beyond the first `n` it carries no router's id. */
  ghost predicate NodeOk(routers: seq<Router>, nodes: seq<Node>, n: nat, l: nat)
    requires l < |nodes|
  {
    && (l >= n ==> nodes[l].rid != 0 && forall i {:trigger routers[i]} :: 0 <= i < |routers| ==>
      nodes[l].rid != routers[i].rid)
    && (nodes[l].net.Some? ==> exists j, p ::
      0 <= j < |routers| && 0 <= p < |Adv(routers, j)| && NetFrom(nodes[l], l < n, Adv(routers, j)[p]))
  }

  ghost predicate NodesOk(routers: seq<Router>, nodes: seq<Node>, n: nat) {
    forall l {:trigger NodeOk(routers, nodes, n, l)} :: 0 <= l < |nodes| ==> NodeOk(routers, nodes, n, l)
  }

  /** Where an advertisement leads: to the router it names, or to a leaf with its network. */
  ghost predicate TargetOk(db: seq<Entry>, nodes: seq<Node>, lsa: Lsa, target: nat) {
    && target < |nodes|
    && (target < |db| ==> db[target].rid == lsa.rid)
    && (target >= |db| ==>
      (forall l :: 0 <= l < |db| ==> db[l].rid != lsa.rid) && nodes[target].net == Some((lsa.network, lsa.mask)))
  }

  /** A later advertisement never changes a leaf. */
  ghost predicate LeavesKept(before: seq<Node>, after: seq<Node>, n: nat) {
    |before| <= |after| && (forall l :: n <= l < |before| ==> after[l] == before[l])
    && (forall l :: 0 <= l < |before| ==> after[l].rid == before[l].rid)
  }

  lemma AddLsaOk(routers: seq<Router>, db: seq<Entry>, nodes: seq<Node>, j: nat, p: nat)
    requires j < |routers| && p < |Adv(routers, j)| && CleanLsa(routers, Adv(routers, j)[p])
    requires |db| <= |nodes| && forall l :: 0 <= l < |db| ==> nodes[l].rid == db[l].rid
    requires NodesOk(routers, nodes, |db|)
    requires Adv(routers, j)[p].rid == 0 || exists i :: 0 <= i < |routers| && routers[i].rid == Adv(routers, j)[p].rid
    ensures var lsa := Adv(routers, j)[p]; var (after, target) := AddLsa(nodes, lsa);
      NodesOk(routers, after, |db|) && TargetOk(db, after, lsa, target) && LeavesKept(nodes, after, |db|)
  {
    var lsa := Adv(routers, j)[p];
    var (after, target) := AddLsa(nodes, lsa);
    forall l | |db| <= l < |nodes| ensures nodes[l].rid != lsa.rid {
      assert NodeOk(routers, nodes, |db|, l);
    }
    forall l | 0 <= l < |after| ensures NodeOk(routers, after, |db|, l) {
      if l < |nodes| {
        assert NodeOk(routers, nodes, |db|, l);
        assert after[l] == nodes[l] || NetFrom(after[l], l < |db|, lsa);
      } else {
        assert NetFrom(after[l], false, lsa);
      }
    }
  }

  ghost predicate RowLeads(db: seq<Entry>, nodes: seq<Node>, lsas: seq<Lsa>, row: seq<nat>) {
    && |row| <= |lsas|
    && forall p {:trigger TargetOk(db, nodes, lsas[p], row[p])} :: 0 <= p < |row| ==>
      TargetOk(db, nodes, lsas[p], row[p])
  }

  lemma RowKept(db: seq<Entry>, before: seq<Node>, after: seq<Node>, lsas: seq<Lsa>, row: seq<nat>)
    requires RowLeads(db, before, lsas, row) && LeavesKept(before, after, |db|)
    ensures RowLeads(db, after, lsas, row)
  {
    forall p | 0 <= p < |row| ensures TargetOk(db, after, lsas[p], row[p]) {
      assert TargetOk(db, before, lsas[p], row[p]);
    }
  }

  lemma RowGrows(db: seq<Entry>, nodes: seq<Node>, lsas: seq<Lsa>, row: seq<nat>, target: nat)
    requires RowLeads(db, nodes, lsas, row) && |row| < |lsas| && TargetOk(db, nodes, lsas[|row|], target)
    ensures RowLeads(db, nodes, lsas, row + [target])
  {
    forall p | 0 <= p < |row + [target]| ensures TargetOk(db, nodes, lsas[p], (row + [target])[p]) {
      if p < |row| {
        assert TargetOk(db, nodes, lsas[p], row[p]);
      }
    }
  }

  ghost predicate RoutersFirst(db: seq<Entry>, nodes: seq<Node>) {
    |db| <= |nodes| && forall l :: 0 <= l < |db| ==> nodes[l].rid == db[l].rid
  }

  /** All advertisements of a stored router. */
  lemma {:induction false} AddLsasOk(routers: seq<Router>, db: seq<Entry>, nodes: seq<Node>, j: nat, n: nat)
    requires Agreed(routers) && j < |routers| && n <= |Adv(routers, j)|
    requires RoutersFirst(db, nodes) && NodesOk(routers, nodes, |db|)
    ensures var r := AddLsas(nodes, Adv(routers, j), n);
      NodesOk(routers, r.0, |db|) && LeavesKept(nodes, r.0, |db|) && RowLeads(db, r.0, Adv(routers, j), r.1)
  {
    if n > 0 {
      AddLsasOk(routers, db, nodes, j, n - 1);
      var before := AddLsas(nodes, Adv(routers, j), n - 1);
      NamedIsRouter(routers, j, n - 1);
      assert CleanLsa(routers, Adv(routers, j)[n - 1]);
      AddLsaOk(routers, db, before.0, j, n - 1);
      var (after, target) := AddLsa(before.0, Adv(routers, j)[n - 1]);
      RowKept(db, before.0, after, Adv(routers, j), before.1);
      RowGrows(db, after, Adv(routers, j), before.1, target);
    }
  }

  lemma NamedIsRouter(routers: seq<Router>, j: nat, p: nat)
    requires Agreed(routers) && j < |routers| && p < |Adv(routers, j)|
    ensures Adv(routers, j)[p].rid == 0 || exists i :: 0 <= i < |routers| && routers[i].rid == Adv(routers, j)[p].rid
  {
    var ifaces := routers[j].ifaces;
    AdvertisedAreNeighbours(ifaces, |ifaces|, p);
    if Adv(routers, j)[p].rid != 0 {
      assert CleanNeighbours(routers, j);
      var a, b :| 0 <= a < |ifaces| && 0 <= b < |ifaces[a].nbrs| && ifaces[a].nbrs[b].id == Adv(routers, j)[p].rid;
    }
  }

  ghost predicate RowsLead(db: seq<Entry>, nodes: seq<Node>, rows: seq<seq<nat>>, n: nat) {
    && n <= |rows| && n <= |db|
    && forall e {:trigger rows[e]} :: 0 <= e < n ==>
      |rows[e]| == |db[e].lsas| && RowLeads(db, nodes, db[e].lsas, rows[e])
  }

  lemma RowsKept(db: seq<Entry>, before: seq<Node>, rows: seq<seq<nat>>, after: seq<Node>, n: nat)
    requires RowsLead(db, before, rows, n) && LeavesKept(before, after, |db|)
    ensures RowsLead(db, after, rows, n)
  {
    forall e | 0 <= e < n ensures |rows[e]| == |db[e].lsas| && RowLeads(db, after, db[e].lsas, rows[e]) {
      RowKept(db, before, after, db[e].lsas, rows[e]);
    }
  }

  lemma RowsAppended(db: seq<Entry>, nodes: seq<Node>, rows: seq<seq<nat>>, row: seq<nat>, n: nat)
    requires 0 < n <= |db| && |rows| == n - 1 && RowsLead(db, nodes, rows, n - 1)
    requires |row| == |db[n - 1].lsas| && RowLeads(db, nodes, db[n - 1].lsas, row)
    ensures RowsLead(db, nodes, rows + [row], n)
  {
  }

  /** The first `n` rows lead where their advertisements say. */
  lemma {:induction false} BuildRowsOk(routers: seq<Router>, i: nat, n: nat)
    requires Agreed(routers) && i < |routers| && n <= |routers[i].db|
    ensures var db := routers[i].db; var r := BuildRows(db, n);
      && RoutersFirst(db, r.0) && NodesOk(routers, r.0, |db|)
      && RowsLead(db, r.0, r.1, n)
  {
    var db := routers[i].db;
    if n > 0 {
      BuildRowsOk(routers, i, n - 1);
      assert Synchronized(routers, i);
      assert Known(routers, i, n - 1);
      var j: nat :| j != i && EntryOf(routers, db, n - 1, j);
      var before, after := BuildRows(db, n - 1), BuildRows(db, n);
      AddLsasOk(routers, db, before.0, j, |db[n - 1].lsas|);
      RowsKept(db, before.0, before.1, after.0, n - 1);
      RowsAppended(db, after.0, before.1, after.1[n - 1], n);
    }
  }

  // ---- Seeds ----

  predicate SeedOfNeighbour(nodes: seq<Node>, nbr: Neighbour, s: Seed) {
    s.node < |nodes| && nodes[s.node].rid == nbr.id && s.gw == nbr.ip
  }

  lemma {:induction false} NeighbourSeedsSound(nodes: seq<Node>, nbr: Neighbour, iface: nat, n: nat, k: nat)
    requires n <= |nodes| && k < |NeighbourSeeds(nodes, nbr, iface, n)|
    ensures var s := NeighbourSeeds(nodes, nbr, iface, n)[k]; s.iface == iface && SeedOfNeighbour(nodes, nbr, s)
  {
    if k < |NeighbourSeeds(nodes, nbr, iface, n - 1)| {
      NeighbourSeedsSound(nodes, nbr, iface, n - 1, k);
    }
  }

  lemma {:induction false} IfaceSeedsSound(nodes: seq<Node>, nbrs: seq<Neighbour>, iface: nat, n: nat, k: nat)
      returns (b: nat)
    requires n <= |nbrs| && k < |IfaceSeeds(nodes, nbrs, iface, n)|
    ensures b < n
    ensures var s := IfaceSeeds(nodes, nbrs, iface, n)[k]; s.iface == iface && SeedOfNeighbour(nodes, nbrs[b], s)
  {
    var before := |IfaceSeeds(nodes, nbrs, iface, n - 1)|;
    if k < before {
      b := IfaceSeedsSound(nodes, nbrs, iface, n - 1, k);
    } else {
      NeighbourSeedsSound(nodes, nbrs[n - 1], iface, |nodes|, k - before);
      b := n - 1;
    }
  }

  /** A seed is a node with the id of a neighbour, with that neighbour's address and interface. */
  lemma {:induction false} SeedsSound(nodes: seq<Node>, ifaces: seq<Iface>, n: nat, k: nat) returns (b: nat)
    requires n <= |ifaces| && k < |Seeds(nodes, ifaces, n)|
    ensures var s := Seeds(nodes, ifaces, n)[k];
      s.iface < n && b < |ifaces[s.iface].nbrs| && SeedOfNeighbour(nodes, ifaces[s.iface].nbrs[b], s)
  {
    var before := |Seeds(nodes, ifaces, n - 1)|;
    if k < before {
      b := SeedsSound(nodes, ifaces, n - 1, k);
    } else {
      b := IfaceSeedsSound(nodes, ifaces[n - 1].nbrs, n - 1, |ifaces[n - 1].nbrs|, k - before);
    }
  }

  lemma {:induction false} NeighbourSeedsComplete(nodes: seq<Node>, nbr: Neighbour, iface: nat, n: nat, v: nat)
      returns (k: nat)
    requires v < n <= |nodes| && nodes[v].rid == nbr.id
    ensures k < |NeighbourSeeds(nodes, nbr, iface, n)| && NeighbourSeeds(nodes, nbr, iface, n)[k].node == v
  {
    if v == n - 1 {
      k := |NeighbourSeeds(nodes, nbr, iface, n - 1)|;
    } else {
      k := NeighbourSeedsComplete(nodes, nbr, iface, n - 1, v);
    }
  }

  lemma {:induction false} IfaceSeedsComplete(nodes: seq<Node>, nbrs: seq<Neighbour>, iface: nat, n: nat, b: nat,
                                              v: nat) returns (k: nat)
    requires b < n <= |nbrs| && v < |nodes| && nodes[v].rid == nbrs[b].id
    ensures k < |IfaceSeeds(nodes, nbrs, iface, n)| && IfaceSeeds(nodes, nbrs, iface, n)[k].node == v
  {
    if b == n - 1 {
      k := NeighbourSeedsComplete(nodes, nbrs[b], iface, |nodes|, v);
      k := |IfaceSeeds(nodes, nbrs, iface, n - 1)| + k;
    } else {
      k := IfaceSeedsComplete(nodes, nbrs, iface, n - 1, b, v);
    }
  }

  /** Every node with the id of a neighbour is a seed. */
  lemma {:induction false} SeedsComplete(nodes: seq<Node>, ifaces: seq<Iface>, n: nat, a: nat, b: nat, v: nat)
      returns (k: nat)
    requires a < n <= |ifaces| && b < |ifaces[a].nbrs| && v < |nodes| && nodes[v].rid == ifaces[a].nbrs[b].id
    ensures k < |Seeds(nodes, ifaces, n)| && Seeds(nodes, ifaces, n)[k].node == v
  {
    if a == n - 1 {
      k := IfaceSeedsComplete(nodes, ifaces[a].nbrs, a, |ifaces[a].nbrs|, b, v);
      k := |Seeds(nodes, ifaces, n - 1)| + k;
    } else {
      k := SeedsComplete(nodes, ifaces, n - 1, a, b, v);
    }
  }

  /** The gateway address on the interface belongs to router `j`. */
  ghost predicate GatewayOf(routers: seq<Router>, i: nat, gw: Addr, iface: nat, j: nat) {
    && i < |routers| && j < |routers| && iface < |routers[i].ifaces|
    && exists b :: 0 <= b < |routers[i].ifaces[iface].nbrs|
         && routers[i].ifaces[iface].nbrs[b].ip == gw && routers[i].ifaces[iface].nbrs[b].id == routers[j].rid
  }

  lemma GatewayIsUnique(routers: seq<Router>, i: nat, gw: Addr, iface: nat, j: nat, j': nat)
    requires Agreed(routers) && GatewayOf(routers, i, gw, iface, j) && GatewayOf(routers, i, gw, iface, j')
    ensures j == j'
  {
    assert DistinctAddresses(routers, i);
    var nbrs := routers[i].ifaces[iface].nbrs;
    var b :| 0 <= b < |nbrs| && nbrs[b].ip == gw && nbrs[b].id == routers[j].rid;
    var c :| 0 <= c < |nbrs| && nbrs[c].ip == gw && nbrs[c].id == routers[j'].rid;
    assert b == c;
  }

  // ---- The graph mirrors the topology ----

  /** `own[k]` is the router behind database entry `k`: every router but `i`, once each. */
  ghost predicate Owners(routers: seq<Router>, i: nat, own: seq<nat>)
    requires i < |routers|
  {
    && |own| == |routers[i].db|
    && (forall k :: 0 <= k < |own| ==> own[k] < |routers| && own[k] != i)
    && (forall k {:trigger EntryOf(routers, routers[i].db, k, own[k])} :: 0 <= k < |own| ==>
      EntryOf(routers, routers[i].db, k, own[k]))
    && Distinct(own)
    && (forall j {:trigger j in own} :: 0 <= j < |routers| && j != i ==> j in own)
  }

  /** Edges start at stored routers and, between stored routers, follow links. */
  ghost predicate EdgeOk(routers: seq<Router>, own: seq<nat>, g: Graph, u: nat, v: nat) {
    v in Row(g, u) ==> u < |own| && v < |g.nodes| && (v < |own| ==> Linked(routers, own[u], own[v]))
  }

  ghost predicate LinkOk(routers: seq<Router>, own: seq<nat>, g: Graph, a: nat, b: nat) {
    a < |own| && b < |own| && Linked(routers, own[a], own[b]) ==> b in Row(g, a)
  }

  /** Seeds are exactly the stored routers that are linked to router `i`, with one of their addresses. */
  ghost predicate SeedOk(routers: seq<Router>, i: nat, own: seq<nat>, seeds: seq<Seed>, v: nat) {
    && (IsSeed(seeds, v) ==> v < |own| && Linked(routers, i, own[v])
                             && GatewayOf(routers, i, LastSeed(seeds, v).gw, LastSeed(seeds, v).iface, own[v]))
    && (v < |own| && Linked(routers, i, own[v]) ==> IsSeed(seeds, v))
  }

  ghost predicate Mirrors(routers: seq<Router>, i: nat, own: seq<nat>, g: Graph, seeds: seq<Seed>) {
    && i < |routers| && Owners(routers, i, own)
    && (forall u: nat, v: nat {:trigger EdgeOk(routers, own, g, u, v)} :: EdgeOk(routers, own, g, u, v))
    && (forall a: nat, b: nat {:trigger LinkOk(routers, own, g, a, b)} :: LinkOk(routers, own, g, a, b))
    && (forall v: nat {:trigger SeedOk(routers, i, own, seeds, v)} :: SeedOk(routers, i, own, seeds, v))
  }

  lemma OwnersExist(routers: seq<Router>, i: nat) returns (own: seq<nat>)
    requires Agreed(routers) && i < |routers|
    ensures Owners(routers, i, own)
  {
    assert Synchronized(routers, i);
    var db := routers[i].db;
    own := [];
    while |own| < |db|
      invariant |own| <= |db|
      invariant forall k :: 0 <= k < |own| ==> own[k] != i && EntryOf(routers, db, k, own[k])
    {
      assert Known(routers, i, |own|);
      var j: nat :| j != i && EntryOf(routers, db, |own|, j);
      own := own + [j];
    }
    forall j | 0 <= j < |routers| && j != i ensures j in own {
      assert Stored(routers, i, j);
      var k: nat :| EntryOf(routers, db, k, j);
      assert EntryOf(routers, db, k, own[k]);
    }
  }

  /** What one row says: each advertisement of the owner leads to the router it names, or to a leaf. */
  lemma RowOfOwner(routers: seq<Router>, i: nat, own: seq<nat>, u: nat)
    requires Agreed(routers) && i < |routers| && Owners(routers, i, own) && u < |own|
    ensures var g := Build(routers[i].db); var db := routers[i].db;
      && u < |g.adj| && |g.adj[u]| == |Adv(routers, own[u])| && RowLeads(db, g.nodes, Adv(routers, own[u]), g.adj[u])
      && RoutersFirst(db, g.nodes) && NodesOk(routers, g.nodes, |db|)
  {
    BuildRowsOk(routers, i, |routers[i].db|);
    assert EntryOf(routers, routers[i].db, u, own[u]);
  }

  lemma EdgeHolds(routers: seq<Router>, i: nat, own: seq<nat>, u: nat, v: nat)
    requires Agreed(routers) && i < |routers| && Owners(routers, i, own)
    ensures EdgeOk(routers, own, Build(routers[i].db), u, v)
  {
    var db, g := routers[i].db, Build(routers[i].db);
    if v in Row(g, u) {
      assert u < |db|;
      RowOfOwner(routers, i, own, u);
      var p :| 0 <= p < |g.adj[u]| && g.adj[u][p] == v;
      var lsas := Adv(routers, own[u]);
      assert TargetOk(db, g.nodes, lsas[p], g.adj[u][p]);
      AdvertisedAreNeighbours(routers[own[u]].ifaces, |routers[own[u]].ifaces|, p);
      assert v < |own| ==> EntryOf(routers, db, v, own[v]);
    }
  }

  lemma LinkHolds(routers: seq<Router>, i: nat, own: seq<nat>, a: nat, b: nat)
    requires Agreed(routers) && i < |routers| && Owners(routers, i, own)
    ensures LinkOk(routers, own, Build(routers[i].db), a, b)
  {
    if a < |own| && b < |own| && Linked(routers, own[a], own[b]) {
      var db, g := routers[i].db, Build(routers[i].db);
      RowOfOwner(routers, i, own, a);
      var ifaces := routers[own[a]].ifaces;
      var x, y :| 0 <= x < |ifaces| && 0 <= y < |ifaces[x].nbrs| && ifaces[x].nbrs[y].id == routers[own[b]].rid;
      var p := NeighboursAreAdvertised(ifaces, |ifaces|, x, y);
      var lsas := Adv(routers, own[a]);
      assert TargetOk(db, g.nodes, lsas[p], g.adj[a][p]);
      assert EntryOf(routers, db, b, own[b]) && Synchronized(routers, i);
      assert g.adj[a][p] == b;
    }
  }

  lemma SeedHolds(routers: seq<Router>, i: nat, own: seq<nat>, v: nat)
    requires Agreed(routers) && i < |routers| && Owners(routers, i, own)
    ensures SeedOk(routers, i, own, Seeds(Build(routers[i].db).nodes, routers[i].ifaces, |routers[i].ifaces|), v)
  {
    var r, nodes := routers[i], Build(routers[i].db).nodes;
    var seeds := Seeds(nodes, r.ifaces, |r.ifaces|);
    BuildRowsOk(routers, i, |r.db|);
    if IsSeed(seeds, v) {
      var s := LastSeed(seeds, v);
      var k :| 0 <= k < |seeds| && seeds[k] == s;
      var b := SeedsSound(nodes, r.ifaces, |r.ifaces|, k);
      assert CleanNeighbours(routers, i);
      assert NodeOk(routers, nodes, |r.db|, v);
      assert v < |own| && EntryOf(routers, r.db, v, own[v]);
    }
    if v < |own| && Linked(routers, i, own[v]) {
      assert EntryOf(routers, r.db, v, own[v]);
      var a, b :| 0 <= a < |r.ifaces| && 0 <= b < |r.ifaces[a].nbrs| && r.ifaces[a].nbrs[b].id == routers[own[v]].rid;
      var k := SeedsComplete(nodes, r.ifaces, |r.ifaces|, a, b, v);
    }
  }

  /** The graph and the seeds at router `i` mirror the topology around it. */
  lemma GraphMirrors(routers: seq<Router>, i: nat) returns (own: seq<nat>)
    requires Agreed(routers) && i < |routers|
    ensures Mirrors(routers, i, own, Build(routers[i].db),
      Seeds(Build(routers[i].db).nodes, routers[i].ifaces, |routers[i].ifaces|))
  {
    own := OwnersExist(routers, i);
    forall u: nat, v: nat ensures EdgeOk(routers, own, Build(routers[i].db), u, v) {
      EdgeHolds(routers, i, own, u, v);
    }
    forall a: nat, b: nat ensures LinkOk(routers, own, Build(routers[i].db), a, b) {
      LinkHolds(routers, i, own, a, b);
    }
    forall v: nat ensures SeedOk(routers, i, own,
      Seeds(Build(routers[i].db).nodes, routers[i].ifaces, |routers[i].ifaces|), v) {
      SeedHolds(routers, i, own, v);
    }
  }

  // ---- The stub network in the graph ----

  /** Every edge to a node that carries network `x` is advertisement `p` of router `t`. */
  ghost predicate StubEdge(own: seq<nat>, g: Graph, t: nat, p: nat, x: Addr, u: nat, v: nat) {
    v in Row(g, u) && v < |g.nodes| && g.nodes[v].net.Some? && g.nodes[v].net.value.0 == x ==>
      u < |own| && own[u] == t && v >= |own| && p < |Row(g, u)| && v == Row(g, u)[p]
  }

  ghost predicate StubEdges(own: seq<nat>, g: Graph, t: nat, p: nat, x: Addr) {
    forall u: nat, v: nat {:trigger StubEdge(own, g, t, p, x, u, v)} :: StubEdge(own, g, t, p, x, u, v)
  }

  /** A node that carries the stub's network is no router. */
  lemma StubNodeIsLeaf(routers: seq<Router>, i: nat, own: seq<nat>, t: nat, p: nat, x: Addr, v: nat)
    requires Agreed(routers) && Stub(routers, t, p, x) && i < |routers| && Owners(routers, i, own)
    requires v < |Build(routers[i].db).nodes| && NodesOk(routers, Build(routers[i].db).nodes, |own|)
    requires RoutersFirst(routers[i].db, Build(routers[i].db).nodes)
    requires Build(routers[i].db).nodes[v].net.Some? && Build(routers[i].db).nodes[v].net.value.0 == x
    ensures v >= |own|
  {
    var nodes := Build(routers[i].db).nodes;
    assert NodeOk(routers, nodes, |own|, v);
    var j, q :| 0 <= j < |routers| && 0 <= q < |Adv(routers, j)| && NetFrom(nodes[v], v < |own|, Adv(routers, j)[q]);
    assert j == t && q == p;
    assert v < |own| ==> EntryOf(routers, routers[i].db, v, own[v]);
  }

  lemma StubEdgeHolds(routers: seq<Router>, i: nat, own: seq<nat>, t: nat, p: nat, x: Addr, u: nat, v: nat)
    requires Agreed(routers) && Stub(routers, t, p, x) && i < |routers| && Owners(routers, i, own)
    ensures StubEdge(own, Build(routers[i].db), t, p, x, u, v)
  {
    var db, g := routers[i].db, Build(routers[i].db);
    if v in Row(g, u) && v < |g.nodes| && g.nodes[v].net.Some? && g.nodes[v].net.value.0 == x {
      assert u < |db|;
      RowOfOwner(routers, i, own, u);
      StubNodeIsLeaf(routers, i, own, t, p, x, v);
      var e :| 0 <= e < |g.adj[u]| && g.adj[u][e] == v;
      var lsas := Adv(routers, own[u]);
      assert TargetOk(db, g.nodes, lsas[e], g.adj[u][e]);
      assert EntryOf(routers, db, u, own[u]);
      assert Adv(routers, own[u])[e].network == x;
    }
  }

  /** At every other router the stub has a leaf that carries its network and mask. */
  ghost predicate LeafAt(own: seq<nat>, g: Graph, t: nat, x: Addr, mask: Addr, k: nat, leaf: nat) {
    && k < |own| && own[k] == t && leaf in Row(g, k) && |own| <= leaf < |g.nodes|
      && g.nodes[leaf].net == Some((x, mask))
  }

  lemma StubLeaf(routers: seq<Router>, i: nat, own: seq<nat>, t: nat, p: nat, x: Addr) returns (k: nat, leaf: nat)
    requires Agreed(routers) && Stub(routers, t, p, x) && i < |routers| && i != t && Owners(routers, i, own)
    ensures LeafAt(own, Build(routers[i].db), t, x, Adv(routers, t)[p].mask, k, leaf)
  {
    var db, g := routers[i].db, Build(routers[i].db);
    assert t in own;
    k :| k < |own| && own[k] == t;
    RowOfOwner(routers, i, own, k);
    leaf := g.adj[k][p];
    var lsas := Adv(routers, own[k]);
    assert TargetOk(db, g.nodes, lsas[p], g.adj[k][p]);
    assert leaf < |db| ==> EntryOf(routers, db, leaf, own[leaf]);
  }
}
