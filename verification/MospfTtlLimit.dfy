/** 256 routers is the exact limit of flooding: on more, a line of 257 leaves its last router without the LSU. */
module MospfTtlLimit {
  import opened Options
  import opened MospfRouter
  import opened MospfNetwork
  import opened MospfFlooding

  const LINE := 257

  // ---- Completeness for given routers ----

  /** A run of originations, deliveries and duplications. */
  ghost predicate FloodRun(states: seq<Net>, events: seq<Event>) {
    Run(states, events) && AllReliable(events)
  }

  predicate HasRids(net: Net, rids: seq<Addr>) {
    |net.routers| == |rids| && forall i :: 0 <= i < |rids| ==> net.routers[i].rid == rids[i]
  }

  /** Neighbour lists go both ways, as an exchange of hellos makes them. */
  ghost predicate Symmetric(net: Net) {
    forall i, j :: 0 <= i < |net.routers| && 0 <= j < |net.routers| ==>
      IsNeighbour(net.routers[i].ifaces, net.routers[j].rid) ==> IsNeighbour(net.routers[j].ifaces, net.routers[i].rid)
  }

  /** The run ends with nothing in flight, and the path leads from a router that has originated an LSU. */
  ghost predicate AtRest(states: seq<Net>, events: seq<Event>, path: seq<nat>) {
    && FloodRun(states, events)
    && var net := states[|events|];
      && net.bag == multiset{} && Symmetric(net) && NeighbourPath(net, path) && path[0] != path[|path| - 1]
      && |net.history| == |net.routers| && |net.history[path[0]]| > 0
  }

  /** Whatever the topology of routers with these ids, as long as links go both ways, and whatever the order of
      deliveries: at rest every router reachable from an origin stores what the origin's newest LSU says. */
  ghost predicate AlwaysComplete(rids: seq<Addr>) {
    forall states: seq<Net>, events: seq<Event>, path: seq<nat> ::
      AtRest(states, events, path) && HasRids(states[|events|], rids) ==>
        StoresNewest(states[|events|], path[0], path[|path| - 1])
  }

  ghost predicate Ids(rids: seq<Addr>) {
    && (forall i, j :: 0 <= i < j < |rids| ==> rids[i] != rids[j])
    && (forall i :: 0 <= i < |rids| ==> rids[i] != 0)
  }

  lemma SmallIsComplete(rids: seq<Addr>)
    requires Ids(rids) && |rids| < LINE
    ensures AlwaysComplete(rids)
  {
    forall states: seq<Net>, events: seq<Event>, path: seq<nat> |
      AtRest(states, events, path) && HasRids(states[|events|], rids)
      ensures StoresNewest(states[|events|], path[0], path[|path| - 1])
    {
      assert ReliableRun(states, events);
      FloodingComplete(states, events, |events|, path);
    }
  }

  // ---- The line ----

  function LineNbr(rids: seq<Addr>, i: nat): seq<Neighbour>
    requires i < |rids|
  {
    [Neighbour(rids[i], 0, 0, 0)]
  }

  /** The first 257 routers form a line, one interface to each side; any others stand alone. */
  function LineIfaces(rids: seq<Addr>, i: nat): seq<Iface>
    requires LINE <= |rids| && i < |rids|
  {
    [Iface(0, 0, if 0 < i < LINE then LineNbr(rids, i - 1) else []),
     Iface(0, 0, if i + 1 < LINE then LineNbr(rids, i + 1) else [])]
  }

  function LineLsas(rids: seq<Addr>): seq<Lsa>
    requires LINE <= |rids|
  {
    Advertise(LineIfaces(rids, 0), 2)
  }

  /** Router `i` once the first LSU of router 0 has been accepted `k` times; k == -1 before it is originated. */
  function LineRouter(rids: seq<Addr>, k: int, i: nat): Router
    requires LINE <= |rids| && i < |rids|
  {
    Router(rids[i], if i == 0 && k >= 0 then 1 else 0, LineIfaces(rids, i),
           if 1 <= i <= k then [Entry(rids[0], 0, 0, LineLsas(rids))] else [])
  }

  /** The LSU after `k` acceptances, on its way to router `to`. */
  function LineMessage(rids: seq<Addr>, k: nat, to: nat): Send
    requires LINE <= |rids| && k < MAX_LSU_TTL && to < |rids|
  {
    Send(rids[to], 0, Lsu(rids[0], 0, MAX_LSU_TTL - k, LineLsas(rids)))
  }

  function LineNet(rids: seq<Addr>, k: int, bag: multiset<Send>): Net
    requires LINE <= |rids|
  {
    Net(seq(|rids|, i requires 0 <= i < |rids| => LineRouter(rids, k, i)), bag,
        seq(|rids|, i requires 0 <= i < |rids| => if i == 0 && k >= 0 then [LineLsas(rids)] else []))
  }

  lemma LineBroadcast(rids: seq<Addr>, i: nat, lsu: Lsu, except: Addr)
    requires LINE <= |rids| && i < LINE
    ensures Broadcast(LineIfaces(rids, i), 2, lsu, except)
         == (if 0 < i && rids[i - 1] != except then [Send(rids[i - 1], 0, lsu)] else [])
            + (if i + 1 < LINE && rids[i + 1] != except then [Send(rids[i + 1], 0, lsu)] else [])
  {
    var ifaces := LineIfaces(rids, i);
    SendsOf(ifaces[0].nbrs, lsu, except);
    SendsOf(ifaces[1].nbrs, lsu, except);
    assert Broadcast(ifaces, 0, lsu, except) == [];
    assert Broadcast(ifaces, 1, lsu, except) == BroadcastIface(ifaces[0].nbrs, |ifaces[0].nbrs|, lsu, except);
  }

  lemma SendsOf(nbrs: seq<Neighbour>, lsu: Lsu, except: Addr)
    requires |nbrs| <= 1
    ensures BroadcastIface(nbrs, |nbrs|, lsu, except)
         == if nbrs == [] || nbrs[0].id == except then [] else [Send(nbrs[0].id, nbrs[0].ip, lsu)]
  {
    assert BroadcastIface(nbrs, 0, lsu, except) == [];
  }

  lemma LineStarts(rids: seq<Addr>)
    requires Ids(rids) && LINE <= |rids|
    ensures Reached(LineNet(rids, -1, multiset{}), true)
  {
    var net := LineNet(rids, -1, multiset{});
    forall i | 0 <= i < |rids| ensures !IsNeighbour(net.routers[i].ifaces, net.routers[i].rid) {
    }
    var states, events: seq<Event> := [net], [];
    assert EndsAt(states, events, net, true);
  }

  lemma LineFirstLsu(rids: seq<Addr>)
    requires Ids(rids) && LINE <= |rids|
    ensures SendLsu(LineRouter(rids, -1, 0)) == (LineRouter(rids, 0, 0), [LineMessage(rids, 0, 1)])
  {
    var r := LineRouter(rids, -1, 0);
    LineBroadcast(rids, 0, OwnLsu(r), 0);
    assert OwnLsu(r) == LineMessage(rids, 0, 1).lsu;
    assert [] + [LineMessage(rids, 0, 1)] == [LineMessage(rids, 0, 1)];
  }

  lemma LineNetsDiffer(rids: seq<Addr>, bag: multiset<Send>, after: multiset<Send>)
    requires LINE <= |rids|
    ensures LineNet(rids, 0, after).routers == LineNet(rids, -1, bag).routers[0 := LineRouter(rids, 0, 0)]
    ensures LineNet(rids, -1, bag).history[0] == []
    ensures LineNet(rids, 0, after).history == LineNet(rids, -1, bag).history[0 := [LineLsas(rids)]]
  {
  }

  lemma LineOriginates(rids: seq<Addr>)
    requires Ids(rids) && LINE <= |rids|
    ensures Reached(LineNet(rids, 0, multiset{LineMessage(rids, 0, 1)}), true)
  {
    LineStarts(rids);
    LineFirstLsu(rids);
    var m := LineMessage(rids, 0, 1);
    var net, after := LineNet(rids, -1, multiset{}), LineNet(rids, 0, multiset{m});
    LineNetsDiffer(rids, multiset{}, multiset{m});
    OneMove(net, 0, LineRouter(rids, 0, 0), m, LineLsas(rids));
    ReachedStep(net, Originate(0), after, true);
  }

  /** A first LSU and its one message. */
  lemma OneMove(net: Net, i: nat, r: Router, m: Send, lsas: seq<Lsa>)
    requires i < |net.routers| == |net.history| && net.history[i] == [] && net.bag == multiset{}
    requires r.sequence != net.routers[i].sequence && Advertise(r.ifaces, |r.ifaces|) == lsas
    ensures Move(net, i, r, [m]) == Net(net.routers[i := r], multiset{m}, net.history[i := [lsas]])
  {
    assert [] + [lsas] == [lsas];
    assert multiset([m]) == multiset{m};
  }

  /** What router `k` sends when it has accepted the LSU: back to router k - 1 unless that is the origin, and on. */
  function LineForwards(rids: seq<Addr>, k: nat): multiset<Send>
    requires LINE <= |rids| && 1 <= k <= MAX_LSU_TTL
  {
    if k == MAX_LSU_TTL then multiset{}
    else (if k == 1 then multiset{} else multiset{LineMessage(rids, k, k - 1)}) + multiset{LineMessage(rids, k, k + 1)}
  }

  lemma EmptyRouterAccepts(r: Router, lsu: Lsu)
    requires r.db == [] && lsu.ttl >= 1
    ensures HandleLsu(r, lsu)
         == (r.(db := [Entry(lsu.rid, lsu.seqNum, 0, lsu.lsas)]),
             if lsu.ttl > 1 then Broadcast(r.ifaces, |r.ifaces|, lsu.(ttl := lsu.ttl - 1), lsu.rid) else [])
  {
    assert FindEntry(r.db, lsu.rid) == None;
    var e := Entry(lsu.rid, lsu.seqNum, 0, lsu.lsas);
    assert r.db + [e] == [e];
  }

  lemma LineHandles(rids: seq<Addr>, k: nat)
    requires Ids(rids) && LINE <= |rids| && 1 <= k <= MAX_LSU_TTL
    ensures var (r, out) := HandleLsu(LineRouter(rids, k - 1, k), LineMessage(rids, k - 1, k).lsu);
      r == LineRouter(rids, k, k) && multiset(out) == LineForwards(rids, k)
  {
    var m, r := LineMessage(rids, k - 1, k), LineRouter(rids, k - 1, k);
    EmptyRouterAccepts(r, m.lsu);
    if k < MAX_LSU_TTL {
      LineSends(rids, k);
    }
  }

  lemma LineSends(rids: seq<Addr>, k: nat)
    requires Ids(rids) && LINE <= |rids| && 1 <= k < MAX_LSU_TTL
    ensures multiset(Broadcast(LineIfaces(rids, k), 2, LineMessage(rids, k, 0).lsu, rids[0])) == LineForwards(rids, k)
  {
    LineBroadcast(rids, k, LineMessage(rids, k, 0).lsu, rids[0]);
    assert rids[k - 1] == rids[0] <==> k == 1;
  }

  lemma LineRouters(rids: seq<Addr>, k: nat, bag: multiset<Send>, after: multiset<Send>)
    requires LINE <= |rids| && 1 <= k <= MAX_LSU_TTL
    ensures LineNet(rids, k, after).routers == LineNet(rids, k - 1, bag).routers[k := LineRouter(rids, k, k)]
    ensures LineNet(rids, k, after).history == LineNet(rids, k - 1, bag).history
  {
  }

  /** Router `k` takes the LSU. */
  lemma LineDelivers(rids: seq<Addr>, k: nat)
    requires Ids(rids) && LINE <= |rids| && 1 <= k <= MAX_LSU_TTL
    requires Reached(LineNet(rids, k - 1, multiset{LineMessage(rids, k - 1, k)}), true)
    ensures Reached(LineNet(rids, k, LineForwards(rids, k)), true)
  {
    var m := LineMessage(rids, k - 1, k);
    var net, after := LineNet(rids, k - 1, multiset{m}), LineNet(rids, k, LineForwards(rids, k));
    LineHandles(rids, k);
    LineRouters(rids, k, net.bag, after.bag);
    assert net.routers[k] == LineRouter(rids, k - 1, k) && net.routers[k].sequence == LineRouter(rids, k, k).sequence;
    assert net.bag - multiset{m} == multiset{};
    ReachedStep(net, Deliver(k, m), after, true);
  }

  /** The copy that goes back is refused. */
  lemma LineRefuses(rids: seq<Addr>, k: nat)
    requires Ids(rids) && LINE <= |rids| && 2 <= k < MAX_LSU_TTL
    requires Reached(LineNet(rids, k, LineForwards(rids, k)), true)
    ensures Reached(LineNet(rids, k, multiset{LineMessage(rids, k, k + 1)}), true)
  {
    var back, on := LineMessage(rids, k, k - 1), LineMessage(rids, k, k + 1);
    LineIgnores(rids, k);
    ReachedStep(LineNet(rids, k, LineForwards(rids, k)), Deliver(k - 1, back), LineNet(rids, k, multiset{on}), true);
  }

  lemma LineIgnores(rids: seq<Addr>, k: nat)
    requires Ids(rids) && LINE <= |rids| && 2 <= k < MAX_LSU_TTL
    ensures var net, back := LineNet(rids, k, LineForwards(rids, k)), LineMessage(rids, k, k - 1);
      && Enabled(net, Deliver(k - 1, back)) && |net.routers| == |net.history|
      && Apply(net, Deliver(k - 1, back)) == LineNet(rids, k, multiset{LineMessage(rids, k, k + 1)})
  {
    var back, on := LineMessage(rids, k, k - 1), LineMessage(rids, k, k + 1);
    var net := LineNet(rids, k, LineForwards(rids, k));
    var r := net.routers[k - 1];
    assert r.db == [Entry(rids[0], 0, 0, LineLsas(rids))];
    assert FindEntry(r.db, rids[0]) == Some(0);
    assert net.routers[k - 1 := r] == net.routers;
    assert net.bag - multiset{back} + multiset([]) == multiset{on};
  }

  /** What is in flight once the copy that goes back is gone. */
  function LineFlight(rids: seq<Addr>, k: nat): multiset<Send>
    requires LINE <= |rids| && k <= MAX_LSU_TTL
  {
    if k < MAX_LSU_TTL then multiset{LineMessage(rids, k, k + 1)} else multiset{}
  }

  lemma {:induction false} LineFloods(rids: seq<Addr>, k: nat)
    requires Ids(rids) && LINE <= |rids| && k <= MAX_LSU_TTL
    ensures Reached(LineNet(rids, k, LineFlight(rids, k)), true)
  {
    if k == 0 {
      LineOriginates(rids);
    } else {
      LineFloods(rids, k - 1);
      LineDelivers(rids, k);
      if 2 <= k < MAX_LSU_TTL {
        LineRefuses(rids, k);
      } else {
        assert LineForwards(rids, k) == LineFlight(rids, k);
      }
    }
  }

  function LinePath(): seq<nat> { seq(LINE, k requires 0 <= k < LINE => k) }

  lemma LineNeighbours(rids: seq<Addr>, k: int, bag: multiset<Send>, i: nat, j: nat)
    requires Ids(rids) && LINE <= |rids| && i < |rids| && j < |rids|
    ensures IsNeighbour(LineNet(rids, k, bag).routers[i].ifaces, rids[j]) <==>
      i < LINE && j < LINE && (j == i + 1 || i == j + 1)
  {
    var ifaces := LineIfaces(rids, i);
    if i + 1 < LINE {
      assert ifaces[1].nbrs[0].id == rids[i + 1];
    }
    if 0 < i < LINE {
      assert ifaces[0].nbrs[0].id == rids[i - 1];
    }
  }

  lemma LineIsSymmetric(rids: seq<Addr>, k: int, bag: multiset<Send>)
    requires Ids(rids) && LINE <= |rids|
    ensures Symmetric(LineNet(rids, k, bag)) && NeighbourPath(LineNet(rids, k, bag), LinePath())
  {
    var net := LineNet(rids, k, bag);
    forall i: nat, j: nat | i < |rids| && j < |rids|
      ensures IsNeighbour(net.routers[i].ifaces, net.routers[j].rid) <==>
        i < LINE && j < LINE && (j == i + 1 || i == j + 1)
    {
      LineNeighbours(rids, k, bag, i, j);
    }
  }

  /** A state at rest that a flooding run reaches, with an empty database at the end of a path from an origin. */
  ghost predicate Starved(net: Net, rids: seq<Addr>, path: seq<nat>) {
    && Reached(net, true) && net.bag == multiset{} && Symmetric(net) && HasRids(net, rids)
    && |net.history| == |net.routers|
    && (forall o :: 0 <= o < |net.history| ==> |net.history[o]| <= 1)
    && NeighbourPath(net, path) && path[0] != path[|path| - 1] && |net.history[path[0]]| > 0
    && net.routers[path[|path| - 1]].db == []
  }

  lemma StarvedIsIncomplete(net: Net, rids: seq<Addr>, path: seq<nat>)
    requires Starved(net, rids, path)
    ensures !AlwaysComplete(rids)
  {
    var states: seq<Net>, events: seq<Event> :| EndsAt(states, events, net, true);
    assert AtRest(states, events, path);
    assert !StoresNewest(net, path[0], path[|path| - 1]);
  }

  lemma LineIsStarved(rids: seq<Addr>)
    requires LINE <= |rids|
    ensures var net, path := LineNet(rids, MAX_LSU_TTL, multiset{}), LinePath();
      && net.bag == multiset{} && HasRids(net, rids) && |net.history| == |net.routers|
      && (forall o :: 0 <= o < |net.history| ==> |net.history[o]| <= 1)
      && path[0] == 0 && path[|path| - 1] == LINE - 1 && |net.history[0]| > 0 && net.routers[LINE - 1].db == []
  {
  }

  lemma LineStarves(rids: seq<Addr>)
    requires Ids(rids) && LINE <= |rids|
    ensures Starved(LineNet(rids, MAX_LSU_TTL, multiset{}), rids, LinePath())
  {
    LineFloods(rids, MAX_LSU_TTL);
    LineIsSymmetric(rids, MAX_LSU_TTL, multiset{});
    LineIsStarved(rids);
  }

  /** With more than 256 routers some run leaves a reachable router without the LSU, although every link goes both
      ways. */
  lemma LargeIsIncomplete(rids: seq<Addr>)
    requires Ids(rids) && LINE <= |rids|
    ensures !AlwaysComplete(rids)
  {
    LineStarves(rids);
    StarvedIsIncomplete(LineNet(rids, MAX_LSU_TTL, multiset{}), rids, LinePath());
  }

  /** For any assignment of router ids, flooding is complete on every topology exactly for up to 256 routers. */
  lemma CompleteIffAtMost256(rids: seq<Addr>)
    requires Ids(rids)
    ensures AlwaysComplete(rids) <==> |rids| <= MAX_LSU_TTL + 1
  {
    if |rids| < LINE {
      SmallIsComplete(rids);
    } else {
      LargeIsIncomplete(rids);
    }
  }
}
