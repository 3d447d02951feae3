/** The graph that update_rtable builds from the database, and multi-source breadth-first search on
    it (07-mospf/mospf_daemon.c). */
module MospfGraph {
  import opened Options
  import opened Pigeonhole
  import opened MospfRouter

  /** A node of the graph. `net` is the network and mask of the last LSA that named the node: the C
      fields are unset until then. */
  datatype Node = Node(rid: Addr, nadv: nat, net: Option<(Addr, Addr)>)

  datatype Graph = Graph(nodes: seq<Node>, adj: seq<seq<nat>>)

  function InitialNodes(db: seq<Entry>): seq<Node> {
    seq(|db|, k requires 0 <= k < |db| => Node(db[k].rid, |db[k].lsas|, None))
  }

  /** The last of the first `n` nodes with this id. */
  function FindLast(nodes: seq<Node>, rid: Addr, n: nat): (r: Option<nat>)
    requires n <= |nodes|
    ensures r.Some? ==> r.value < n && nodes[r.value].rid == rid
    ensures r == None ==> forall l :: 0 <= l < n ==> nodes[l].rid != rid
  {
    if n == 0 then None
    else if nodes[n - 1].rid == rid then Some(n - 1)
    else FindLast(nodes, rid, n - 1)
  }

  function Touched(node: Node, lsa: Lsa): Node {
    if node.rid == lsa.rid then node.(net := Some((lsa.network, lsa.mask))) else node
  }

  /** Every node with the LSA's router id takes the LSA's network and mask. */
  function Touch(nodes: seq<Node>, lsa: Lsa): seq<Node> {
    seq(|nodes|, l requires 0 <= l < |nodes| => Touched(nodes[l], lsa))
  }

  function LeafNode(lsa: Lsa): Node { Node(lsa.network, 0, Some((lsa.network, lsa.mask))) }

  /** One LSA: an edge to the node it names, or to a new leaf named after its network. */
  function AddLsa(nodes: seq<Node>, lsa: Lsa): (seq<Node>, nat) {
    match FindLast(nodes, lsa.rid, |nodes|)
    case Some(l) => (Touch(nodes, lsa), l)
    case None => (nodes + [LeafNode(lsa)], |nodes|)
  }

  /** What adding LSAs keeps: ids and counts of the known nodes; new nodes are leaves; a node once
      named stays named. */
  ghost predicate Grown(before: seq<Node>, after: seq<Node>) {
    && |before| <= |after|
    && (forall l :: 0 <= l < |before| ==>
          after[l].rid == before[l].rid && after[l].nadv == before[l].nadv
            && (before[l].net.Some? ==> after[l].net.Some?))
    && (forall l :: |before| <= l < |after| ==> after[l].nadv == 0)
  }

  /** Every target is a node that an LSA has named. */
  ghost predicate RowOk(nodes: seq<Node>, row: seq<nat>) {
    forall j :: 0 <= j < |row| ==> row[j] < |nodes| && nodes[row[j]].net.Some?
  }

  function AddLsas(nodes: seq<Node>, lsas: seq<Lsa>, n: nat): (r: (seq<Node>, seq<nat>))
    requires n <= |lsas|
    ensures |r.1| == n
  {
    if n == 0 then (nodes, [])
    else
      var before := AddLsas(nodes, lsas, n - 1);
      var next := AddLsa(before.0, lsas[n - 1]);
      (next.0, before.1 + [next.1])
  }

  /** The nodes and rows after the first `n` database entries. */
  function BuildRows(db: seq<Entry>, n: nat): (r: (seq<Node>, seq<seq<nat>>))
    requires n <= |db|
    ensures |r.1| == n
  {
    if n == 0 then (InitialNodes(db), [])
    else
      var before := BuildRows(db, n - 1);
      var next := AddLsas(before.0, db[n - 1].lsas, |db[n - 1].lsas|);
      (next.0, before.1 + [next.1])
  }

  lemma {:induction false} AddLsasGrow(nodes: seq<Node>, lsas: seq<Lsa>, n: nat)
    requires n <= |lsas|
    ensures Grown(nodes, AddLsas(nodes, lsas, n).0) && RowOk(AddLsas(nodes, lsas, n).0, AddLsas(nodes, lsas, n).1)
  {
    if n > 0 {
      AddLsasGrow(nodes, lsas, n - 1);
      var before := AddLsas(nodes, lsas, n - 1);
      assert Grown(before.0, AddLsa(before.0, lsas[n - 1]).0);
    }
  }

  lemma {:induction false} BuildRowsGrow(db: seq<Entry>, n: nat)
    requires n <= |db|
    ensures Grown(InitialNodes(db), BuildRows(db, n).0)
    ensures forall e :: 0 <= e < n ==>
      |BuildRows(db, n).1[e]| == |db[e].lsas| && RowOk(BuildRows(db, n).0, BuildRows(db, n).1[e])
  {
    if n > 0 {
      BuildRowsGrow(db, n - 1);
      var before := BuildRows(db, n - 1);
      AddLsasGrow(before.0, db[n - 1].lsas, |db[n - 1].lsas|);
      var after := BuildRows(db, n);
      forall e | 0 <= e < n ensures |after.1[e]| == |db[e].lsas| && RowOk(after.0, after.1[e]) {
        assert e < n - 1 ==> after.1[e] == before.1[e];
      }
    }
  }

  function Build(db: seq<Entry>): Graph {
    Graph(BuildRows(db, |db|).0, BuildRows(db, |db|).1)
  }

  function Row(g: Graph, u: nat): seq<nat> {
    if u < |g.adj| then g.adj[u] else []
  }

  ghost predicate WellFormed(g: Graph) {
    forall u :: 0 <= u < |g.adj| ==> RowOk(g.nodes, g.adj[u])
  }

  // ---- Seeds: the nodes of the router's own neighbours ----

  datatype Seed = Seed(node: nat, gw: Addr, iface: nat)

  function NeighbourSeeds(nodes: seq<Node>, nbr: Neighbour, iface: nat, n: nat): seq<Seed>
    requires n <= |nodes|
  {
    if n == 0 then []
    else NeighbourSeeds(nodes, nbr, iface, n - 1)
         + if nodes[n - 1].rid == nbr.id then [Seed(n - 1, nbr.ip, iface)] else []
  }

  function IfaceSeeds(nodes: seq<Node>, nbrs: seq<Neighbour>, iface: nat, n: nat): seq<Seed>
    requires n <= |nbrs|
  {
    if n == 0 then []
    else IfaceSeeds(nodes, nbrs, iface, n - 1) + NeighbourSeeds(nodes, nbrs[n - 1], iface, |nodes|)
  }

  function Seeds(nodes: seq<Node>, ifaces: seq<Iface>, n: nat): seq<Seed>
    requires n <= |ifaces|
  {
    if n == 0 then []
    else Seeds(nodes, ifaces, n - 1) + IfaceSeeds(nodes, ifaces[n - 1].nbrs, n - 1, |ifaces[n - 1].nbrs|)
  }

  predicate IsSeed(seeds: seq<Seed>, v: nat) {
    exists j :: 0 <= j < |seeds| && seeds[j].node == v
  }

  /** The seed that named the node last: its gateway and interface win. */
  function LastSeed(seeds: seq<Seed>, v: nat): (s: Seed)
    requires IsSeed(seeds, v)
    ensures s in seeds && s.node == v
  {
    var last := seeds[|seeds| - 1];
    if last.node == v then last
    else
      var rest := seeds[..|seeds| - 1];
      assert IsSeed(rest, v) by {
        var j :| 0 <= j < |seeds| && seeds[j].node == v;
        assert rest[j].node == v;
      }
      LastSeed(rest, v)
  }

  // ---- Reachability and distance ----

  /** `v` is `n` edges away from `s`. */
  ghost predicate Reach(g: Graph, s: nat, v: nat, n: nat)
    decreases n
  {
    if n == 0 then v == s
    else exists u: nat :: Reach(g, s, u, n - 1) && v in Row(g, u)
  }

  lemma ReachStep(g: Graph, s: nat, u: nat, n: nat, v: nat)
    requires Reach(g, s, u, n) && v in Row(g, u)
    ensures Reach(g, s, v, n + 1)
  {
  }

  ghost predicate ReachedFrom(g: Graph, seeds: seq<Seed>, v: nat, n: nat) {
    exists s: nat :: IsSeed(seeds, s) && Reach(g, s, v, n)
  }

  /** `v` is reached from the seed `s` in `n` edges and from no seed in fewer. */
  ghost predicate Nearest(g: Graph, seeds: seq<Seed>, s: nat, v: nat, n: nat) {
    && IsSeed(seeds, s) && Reach(g, s, v, n)
    && forall m: nat :: ReachedFrom(g, seeds, v, m) ==> n <= m
  }

  /** The nodes a route is wanted for. */
  ghost function Wanted(g: Graph, seeds: seq<Seed>): set<nat> {
    set v: nat | v < |g.nodes| && !IsSeed(seeds, v) && exists n: nat :: ReachedFrom(g, seeds, v, n)
  }

  // ---- Breadth-first search, on values ----

  datatype Search = Search(queue: seq<nat>, visited: seq<bool>, dist: seq<nat>, src: seq<nat>)

  predicate Queued(b: Search, v: nat) { v in b.queue }

  /** The queue holds exactly the visited nodes: first the seeds, then others without repetition. */
  ghost predicate QueueOk(g: Graph, seeds: seq<Seed>, b: Search) {
    && |b.visited| == |b.dist| == |b.src| == |g.nodes|
    && (forall j :: 0 <= j < |b.queue| ==> b.queue[j] < |g.nodes| && b.visited[b.queue[j]])
    && (forall v {:trigger Queued(b, v)} :: 0 <= v < |g.nodes| && b.visited[v] ==> Queued(b, v))
    && |seeds| <= |b.queue|
    && (forall j {:trigger seeds[j]} :: 0 <= j < |seeds| ==> b.queue[j] == seeds[j].node)
    && Distinct(b.queue[|seeds|..])
    && (forall i {:trigger IsSeed(seeds, b.queue[i])} :: |seeds| <= i < |b.queue| ==> !IsSeed(seeds, b.queue[i]))
  }

  /** Every visited node is reached from its source in exactly its distance; seeds are at distance 0. */
  ghost predicate DistOk(g: Graph, seeds: seq<Seed>, b: Search)
    requires |b.visited| == |b.dist| == |b.src| == |g.nodes|
  {
    && (forall v {:trigger b.src[v]} {:trigger b.dist[v]} :: 0 <= v < |g.nodes| && b.visited[v] ==>
          IsSeed(seeds, b.src[v]) && Reach(g, b.src[v], v, b.dist[v]))
    && (forall v {:trigger IsSeed(seeds, v)} :: 0 <= v < |g.nodes| && IsSeed(seeds, v) ==>
          b.visited[v] && b.dist[v] == 0 && b.src[v] == v)
  }

  /** Distances do not decrease along the queue. */
  ghost predicate QueueSorted(b: Search)
    requires forall j :: 0 <= j < |b.queue| ==> b.queue[j] < |b.dist|
  {
    forall i, j {:trigger b.dist[b.queue[i]], b.dist[b.queue[j]]} :: 0 <= i < j < |b.queue| ==>
      b.dist[b.queue[i]] <= b.dist[b.queue[j]]
  }

  /** What every queue and visit operation keeps. */
  ghost predicate SearchOk(g: Graph, seeds: seq<Seed>, b: Search) {
    QueueOk(g, seeds, b) && DistOk(g, seeds, b) && QueueSorted(b)
  }

  /** Nothing queued is more than one level beyond `level`. */
  ghost predicate WithinLevel(b: Search, level: nat)
    requires forall j :: 0 <= j < |b.queue| ==> b.queue[j] < |b.dist|
  {
    forall j :: 0 <= j < |b.queue| ==> b.dist[b.queue[j]] <= level + 1
  }

  /** The first `n` edges of `u` lead to visited nodes at most one level further. */
  ghost predicate EdgesDone(g: Graph, b: Search, u: nat, n: nat)
    requires u < |b.dist| && |b.visited| == |b.dist|
  {
    forall i :: 0 <= i < n && i < |Row(g, u)| ==>
      Row(g, u)[i] < |b.dist| && b.visited[Row(g, u)[i]] && b.dist[Row(g, u)[i]] <= b.dist[u] + 1
  }

  function Push(b: Search, u: nat, w: nat): Search
    requires |b.visited| == |b.dist| == |b.src| && u < |b.dist| && w < |b.dist|
  {
    Search(b.queue + [w], b.visited[w := true], b.dist[w := b.dist[u] + 1], b.src[w := b.src[u]])
  }

  /** Discovering an unvisited node keeps the search sound, ordered and within its levels. */
  lemma PushKeeps(g: Graph, seeds: seq<Seed>, b: Search, u: nat, w: nat)
    requires SearchOk(g, seeds, b) && u < |g.nodes| && b.visited[u] && WithinLevel(b, b.dist[u])
    requires w in Row(g, u) && w < |g.nodes| && !b.visited[w]
    ensures SearchOk(g, seeds, Push(b, u, w)) && WithinLevel(Push(b, u, w), b.dist[u])
    ensures forall v, n :: 0 <= v < |g.nodes| && b.visited[v] && EdgesDone(g, b, v, n) ==>
      EdgesDone(g, Push(b, u, w), v, n)
  {
    var c := Push(b, u, w);
    PushKeepsQueue(g, seeds, b, u, w);
    PushKeepsDist(g, seeds, b, u, w);
  }

  lemma PushKeepsQueue(g: Graph, seeds: seq<Seed>, b: Search, u: nat, w: nat)
    requires QueueOk(g, seeds, b) && QueueSorted(b) && u < |g.nodes| && WithinLevel(b, b.dist[u])
    requires w < |g.nodes| && !b.visited[w] && !IsSeed(seeds, w)
    ensures var c := Push(b, u, w);
      QueueOk(g, seeds, c) && QueueSorted(c) && (b.visited[u] ==> WithinLevel(c, b.dist[u]))
  {
    var c, n := Push(b, u, w), |b.queue|;
    forall j | 0 <= j <= n
      ensures c.queue[j] < |g.nodes| && c.visited[c.queue[j]]
      ensures if j < n then c.queue[j] == b.queue[j] && c.queue[j] != w else c.queue[j] == w
    {
    }
    forall v | 0 <= v < |g.nodes| && c.visited[v] ensures Queued(c, v) {
      assert v != w ==> b.visited[v] && Queued(b, v);
      assert c.queue[n] == w;
    }
    assert c.queue[|seeds|..] == b.queue[|seeds|..] + [w];
    assert forall t :: 0 <= t < n - |seeds| ==> b.queue[|seeds|..][t] == b.queue[|seeds| + t] != w;
    forall i | |seeds| <= i <= n ensures !IsSeed(seeds, c.queue[i]) {
      assert i < n ==> !IsSeed(seeds, b.queue[i]);
    }
  }

  lemma PushKeepsDist(g: Graph, seeds: seq<Seed>, b: Search, u: nat, w: nat)
    requires |b.visited| == |b.dist| == |b.src| == |g.nodes|
    requires DistOk(g, seeds, b) && u < |g.nodes| && b.visited[u] && w < |g.nodes| && w in Row(g, u) && !b.visited[w]
    ensures DistOk(g, seeds, Push(b, u, w))
  {
    assert Reach(g, b.src[u], u, b.dist[u]) && Reach(g, b.src[u], w, b.dist[u] + 1);
  }

  lemma {:induction false} DoneBounds(g: Graph, seeds: seq<Seed>, b: Search, s: nat, v: nat, n: nat)
    requires SearchOk(g, seeds, b)
    requires forall u :: 0 <= u < |g.nodes| && b.visited[u] ==> EdgesDone(g, b, u, |Row(g, u)|)
    requires IsSeed(seeds, s) && s < |g.nodes| && Reach(g, s, v, n)
    ensures v < |g.nodes| && b.visited[v] && b.dist[v] <= n
    decreases n
  {
    if n > 0 {
      var u: nat :| Reach(g, s, u, n - 1) && v in Row(g, u);
      DoneBounds(g, seeds, b, s, u, n - 1);
      var i :| 0 <= i < |Row(g, u)| && Row(g, u)[i] == v;
      assert EdgesDone(g, b, u, |Row(g, u)|);
    }
  }

  /** When the queue is exhausted the search is complete and every distance is minimal. */
  lemma SearchIsComplete(g: Graph, seeds: seq<Seed>, b: Search)
    requires SearchOk(g, seeds, b)
    requires forall j :: 0 <= j < |seeds| ==> seeds[j].node < |g.nodes|
    requires forall u :: 0 <= u < |g.nodes| && b.visited[u] ==> EdgesDone(g, b, u, |Row(g, u)|)
    ensures forall v :: 0 <= v < |g.nodes| && b.visited[v] ==> Nearest(g, seeds, b.src[v], v, b.dist[v])
    ensures forall v :: v in b.queue[|seeds|..] <==> v in Wanted(g, seeds)
  {
    forall v: nat, m: nat | ReachedFrom(g, seeds, v, m) ensures v < |g.nodes| && b.visited[v] && b.dist[v] <= m {
      var s: nat :| IsSeed(seeds, s) && Reach(g, s, v, m);
      DoneBounds(g, seeds, b, s, v, m);
    }
    forall v: nat | v in b.queue[|seeds|..] ensures v in Wanted(g, seeds) {
      var i :| |seeds| <= i < |b.queue| && b.queue[i] == v;
      assert !IsSeed(seeds, b.queue[i]);
      assert ReachedFrom(g, seeds, v, b.dist[v]);
    }
    forall v | v in Wanted(g, seeds) ensures v in b.queue[|seeds|..] {
      var n: nat :| ReachedFrom(g, seeds, v, n);
      assert b.visited[v] && Queued(b, v);
      var j :| 0 <= j < |b.queue| && b.queue[j] == v;
      forall i | 0 <= i < |seeds| ensures IsSeed(seeds, b.queue[i]) {
        assert b.queue[i] == seeds[i].node;
      }
      assert b.queue[|seeds|..][j - |seeds|] == v;
    }
  }
}
