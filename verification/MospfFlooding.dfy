/** Flooding without loss, aging or neighbour changes reaches everybody, in any order of delivery
    and with any duplication. */
module MospfFlooding {
  import opened MachineInts
  import opened Pigeonhole
  import opened MospfRouter
  import opened MospfNetwork

  predicate Reliable(e: Event) { e.Originate? || e.Deliver? || e.Duplicate? }

  /** Router `e` stores an LSU of the origin at least as new as `s`. */
  ghost predicate Holds(net: Net, e: nat, rid: Addr, s: int)
    requires e < |net.routers|
  {
    exists k :: 0 <= k < |net.routers[e].db| && net.routers[e].db[k].rid == rid && net.routers[e].db[k].seqNum >= s
  }

  ghost predicate InFlight(net: Net, to: Addr, rid: Addr, s: int) {
    exists m :: m in net.bag && m.to == to && m.lsu.rid == rid && m.lsu.seqNum >= s
  }

  ghost predicate Served(net: Net, e: nat, rid: Addr, s: int)
    requires e < |net.routers|
  {
    Holds(net, e, rid, s) || InFlight(net, net.routers[e].rid, rid, s)
  }

  /** Every neighbour of `d` other than the origin has the LSU or has it coming. */
  ghost predicate Covered(net: Net, d: nat, rid: Addr, s: int)
    requires d < |net.routers|
  {
    forall e {:trigger Served(net, e, rid, s)} ::
      0 <= e < |net.routers| && net.routers[e].rid != rid && IsNeighbour(net.routers[d].ifaces, net.routers[e].rid) ==>
        Served(net, e, rid, s)
  }

  /** The routers an LSU has passed: distinct, from the origin on, one for each unit of TTL used,
      and all but the origin still hold something at least as new. */
  ghost predicate Chain(net: Net, m: Send, path: seq<nat>) {
    && |path| == MAX_LSU_TTL + 1 - m.lsu.ttl && |path| > 0 && Distinct(path)
    && (forall j :: 0 <= j < |path| ==> path[j] < |net.routers|)
    && net.routers[path[0]].rid == m.lsu.rid
    && (forall j {:trigger Holds(net, path[j], m.lsu.rid, m.lsu.seqNum)} :: 1 <= j < |path| ==>
          Holds(net, path[j], m.lsu.rid, m.lsu.seqNum))
  }

  ghost predicate Chained(net: Net, m: Send) {
    1 <= m.lsu.ttl && exists path :: Chain(net, m, path)
  }

  /** The number that everybody ends up with after `n` LSUs of a router: numbers do not go beyond 65535, and what has
      come round to 0 again is refused. */
  function HighestNumber(n: nat): int { (if n <= TWO16 then n else TWO16) - 1 }

  ghost predicate RouterCovered(net: Net, d: nat)
    requires d < |net.routers| == |net.history|
  {
    && (forall k {:trigger net.routers[d].db[k]} :: 0 <= k < |net.routers[d].db| ==>
          Covered(net, d, net.routers[d].db[k].rid, net.routers[d].db[k].seqNum))
    && (|net.history[d]| > 0 ==> Covered(net, d, net.routers[d].rid, HighestNumber(|net.history[d]|)))
  }

  ghost predicate FloodInv(net: Net) {
    && Inv(net)
    && (forall m {:trigger Chained(net, m)} :: m in net.bag ==> Chained(net, m))
    && (forall d {:trigger RouterCovered(net, d)} :: 0 <= d < |net.routers| ==> RouterCovered(net, d))
  }

  /** Few enough routers for the TTL, and real router ids. */
  ghost predicate Bounded(net: Net) {
    && |net.routers| <= MAX_LSU_TTL + 1
    && (forall i :: 0 <= i < |net.routers| ==> net.routers[i].rid != 0)
  }

  /** Nobody stores less after the event, and neighbour lists stay. */
  ghost predicate Keeps(before: Net, after: Net) {
    && |before.routers| == |after.routers|
    && (forall i :: 0 <= i < |before.routers| ==>
          after.routers[i].rid == before.routers[i].rid && after.routers[i].ifaces == before.routers[i].ifaces)
    && (forall e, rid, s :: 0 <= e < |before.routers| && Holds(before, e, rid, s) ==> Holds(after, e, rid, s))
  }

  lemma StoreKeepsHeld(r: Router, lsu: Lsu, k: nat)
    requires Accepts(r, lsu) && UniqueOrigins(r.db) && k < |r.db|
    ensures exists j :: 0 <= j < |StoreLsu(r.db, lsu)| && StoreLsu(r.db, lsu)[j].rid == r.db[k].rid
                        && StoreLsu(r.db, lsu)[j].seqNum >= r.db[k].seqNum
  {
    assert StoreLsu(r.db, lsu)[k].rid == r.db[k].rid;
  }

  lemma EventKeeps(net: Net, e: Event)
    requires Inv(net) && Enabled(net, e) && Reliable(e)
    ensures Keeps(net, Apply(net, e))
  {
    var after := Apply(net, e);
    forall i, rid, s | 0 <= i < |net.routers| && Holds(net, i, rid, s) ensures Holds(after, i, rid, s) {
      var k :| 0 <= k < |net.routers[i].db| && net.routers[i].db[k].rid == rid && net.routers[i].db[k].seqNum >= s;
      DatabaseAfter(net, e, i);
      if e.Deliver? && e.i == i && Accepts(net.routers[i], e.m.lsu) {
        assert RouterOk(net, i);
        StoreKeepsHeld(net.routers[i], e.m.lsu, k);
      } else {
        assert after.routers[i].db[k] == net.routers[i].db[k];
      }
    }
  }

  lemma ChainKept(before: Net, after: Net, m: Send)
    requires Chained(before, m) && Keeps(before, after)
    ensures Chained(after, m)
  {
    var path :| Chain(before, m, path);
    forall j | 1 <= j < |path| ensures Holds(after, path[j], m.lsu.rid, m.lsu.seqNum) {
      assert Holds(before, path[j], m.lsu.rid, m.lsu.seqNum);
    }
    assert Chain(after, m, path);
  }

  /** A delivered LSU is held afterwards, whether it was stored or found too old. */
  lemma DeliveredIsHeld(net: Net, i: nat, m: Send)
    requires Inv(net) && Enabled(net, Deliver(i, m)) && 1 <= m.lsu.ttl
    ensures Holds(Apply(net, Deliver(i, m)), i, m.lsu.rid, m.lsu.seqNum)
  {
    var db := net.routers[i].db;
    var after := Apply(net, Deliver(i, m));
    DatabaseAfter(net, Deliver(i, m), i);
    match FindEntry(db, m.lsu.rid)
    case Some(k) => assert after.routers[i].db[k].rid == m.lsu.rid && after.routers[i].db[k].seqNum >= m.lsu.seqNum;
    case None => assert after.routers[i].db[|db|].rid == m.lsu.rid;
  }

  /** Whoever was served stays served. */
  lemma ServedKept(net: Net, e: Event, j: nat, rid: Addr, s: int)
    requires FloodInv(net) && Enabled(net, e) && Reliable(e) && j < |net.routers| && Served(net, j, rid, s)
    ensures |Apply(net, e).routers| == |net.routers| && Served(Apply(net, e), j, rid, s)
  {
    var after := Apply(net, e);
    EventKeeps(net, e);
    if !Holds(net, j, rid, s) {
      var m :| m in net.bag && m.to == net.routers[j].rid && m.lsu.rid == rid && m.lsu.seqNum >= s;
      if e.Deliver? && e.m == m {
        assert e.i == j;
        assert Chained(net, m);
        DeliveredIsHeld(net, j, m);
      } else {
        assert m in after.bag;
      }
    }
  }

  lemma CoveredKept(net: Net, e: Event, d: nat, rid: Addr, s: int)
    requires FloodInv(net) && Enabled(net, e) && Reliable(e) && d < |net.routers| && Covered(net, d, rid, s)
    ensures |Apply(net, e).routers| == |net.routers| && Covered(Apply(net, e), d, rid, s)
  {
    var after := Apply(net, e);
    EventKeeps(net, e);
    forall j | 0 <= j < |net.routers| && net.routers[j].rid != rid
      && IsNeighbour(net.routers[d].ifaces, net.routers[j].rid)
      ensures Served(after, j, rid, s)
    {
      assert Served(net, j, rid, s);
      ServedKept(net, e, j, rid, s);
    }
  }

  /** A broadcast covers the neighbours of the router that sends it. */
  lemma BroadcastCovers(net: Net, d: nat, lsu: Lsu, except: Addr)
    requires d < |net.routers|
      && (except == lsu.rid || forall i :: 0 <= i < |net.routers| ==> net.routers[i].rid != except)
    requires forall s :: s in Broadcast(net.routers[d].ifaces, |net.routers[d].ifaces|, lsu, except) ==> s in net.bag
    ensures Covered(net, d, lsu.rid, lsu.seqNum)
  {
    var ifaces := net.routers[d].ifaces;
    forall e | 0 <= e < |net.routers| && net.routers[e].rid != lsu.rid && IsNeighbour(ifaces, net.routers[e].rid)
      ensures Served(net, e, lsu.rid, lsu.seqNum)
    {
      var i, k :| 0 <= i < |ifaces| && 0 <= k < |ifaces[i].nbrs| && ifaces[i].nbrs[k].id == net.routers[e].rid;
      var s := Send(net.routers[e].rid, ifaces[i].nbrs[k].ip, lsu);
      BroadcastReaches(ifaces, |ifaces|, lsu, except, s);
      assert s in net.bag;
    }
  }

  /** A router that accepts an LSU is not yet on its chain, so the chain grows by it. */
  lemma AcceptExtendsChain(net: Net, i: nat, m: Send, path: seq<nat>)
    requires FloodInv(net) && Enabled(net, Deliver(i, m)) && Accepts(net.routers[i], m.lsu) && Chain(net, m, path)
    ensures var after := Apply(net, Deliver(i, m));
      && |after.routers| == |net.routers|
      && Distinct(path + [i])
      && (forall j {:trigger Holds(after, (path + [i])[j], m.lsu.rid, m.lsu.seqNum)} :: 1 <= j < |path| + 1 ==>
            (path + [i])[j] < |net.routers| && Holds(after, (path + [i])[j], m.lsu.rid, m.lsu.seqNum))
  {
    var after := Apply(net, Deliver(i, m));
    EventKeeps(net, Deliver(i, m));
    DeliveredIsHeld(net, i, m);
    assert MessageOk(net, m) && RouterOk(net, i);
    forall j | 1 <= j < |path| + 1
      ensures (path + [i])[j] < |net.routers| && Holds(after, (path + [i])[j], m.lsu.rid, m.lsu.seqNum)
    {
      assert j < |path| ==> Holds(net, path[j], m.lsu.rid, m.lsu.seqNum);
    }
    forall j | 0 <= j < |path| ensures path[j] != i {
      if j > 0 {
        assert Holds(net, path[j], m.lsu.rid, m.lsu.seqNum);
      }
    }
  }

  lemma EverybodyHolds(after: Net, i: nat, m: Send, path: seq<nat>)
    requires i < |after.routers| <= |path| + 1 && |path| > 0 && Distinct(path + [i])
    requires forall j :: 0 <= j < |path| ==> path[j] < |after.routers|
    requires after.routers[path[0]].rid == m.lsu.rid
    requires forall j {:trigger Holds(after, (path + [i])[j], m.lsu.rid, m.lsu.seqNum)} :: 1 <= j < |path| + 1 ==>
      (path + [i])[j] < |after.routers| && Holds(after, (path + [i])[j], m.lsu.rid, m.lsu.seqNum)
    ensures Covered(after, i, m.lsu.rid, m.lsu.seqNum)
  {
    var longer := path + [i];
    DistinctIsShort(|after.routers|, longer);
    forall e | 0 <= e < |after.routers| && after.routers[e].rid != m.lsu.rid
      ensures Served(after, e, m.lsu.rid, m.lsu.seqNum)
    {
      DistinctIsAll(|after.routers|, longer, e);
      var j :| 0 <= j < |longer| && longer[j] == e;
      assert Holds(after, longer[j], m.lsu.rid, m.lsu.seqNum);
    }
  }

  /** With 256 routers the last hop of an exhausted TTL has nobody left to tell. */
  lemma AcceptCovers(net: Net, i: nat, m: Send)
    requires FloodInv(net) && Bounded(net) && Enabled(net, Deliver(i, m)) && Accepts(net.routers[i], m.lsu)
    ensures var after := Apply(net, Deliver(i, m));
      |after.routers| == |net.routers| && Covered(after, i, m.lsu.rid, m.lsu.seqNum)
  {
    var after := Apply(net, Deliver(i, m));
    EventKeeps(net, Deliver(i, m));
    assert Chained(net, m);
    if m.lsu.ttl > 1 {
      BroadcastCovers(after, i, m.lsu.(ttl := m.lsu.ttl - 1), m.lsu.rid);
    } else {
      var path :| Chain(net, m, path);
      AcceptExtendsChain(net, i, m, path);
      EverybodyHolds(after, i, m, path);
    }
  }

  lemma ChainGrows(after: Net, i: nat, m: Send, f: Send, path: seq<nat>)
    requires i < |after.routers| && |path| == MAX_LSU_TTL + 1 - m.lsu.ttl && |path| > 0 && Distinct(path + [i])
    requires forall j :: 0 <= j < |path| ==> path[j] < |after.routers|
    requires after.routers[path[0]].rid == m.lsu.rid
    requires forall j {:trigger Holds(after, (path + [i])[j], m.lsu.rid, m.lsu.seqNum)} :: 1 <= j < |path| + 1 ==>
      (path + [i])[j] < |after.routers| && Holds(after, (path + [i])[j], m.lsu.rid, m.lsu.seqNum)
    requires m.lsu.ttl > 1 && f.lsu == m.lsu.(ttl := m.lsu.ttl - 1)
    ensures Chained(after, f)
  {
    assert Chain(after, f, path + [i]);
  }

  lemma ForwardedIsChained(net: Net, i: nat, m: Send, f: Send)
    requires FloodInv(net) && Enabled(net, Deliver(i, m)) && Accepts(net.routers[i], m.lsu) && m.lsu.ttl > 1
    requires f.lsu == m.lsu.(ttl := m.lsu.ttl - 1)
    ensures Chained(Apply(net, Deliver(i, m)), f)
  {
    EventKeeps(net, Deliver(i, m));
    assert Chained(net, m);
    var path :| Chain(net, m, path);
    AcceptExtendsChain(net, i, m, path);
    ChainGrows(Apply(net, Deliver(i, m)), i, m, f, path);
  }

  /** Where a message comes from: it was there, or is an own LSU, or a forwarded one. */
  lemma NewMessage(net: Net, e: Event, m: Send)
    requires |net.routers| == |net.history| && Enabled(net, e) && Reliable(e)
    requires m in Apply(net, e).bag && m !in net.bag
    ensures e.Originate? || (e.Deliver? && Accepts(net.routers[e.i], e.m.lsu) && e.m.lsu.ttl > 1)
    ensures m.lsu == if e.Originate? then OwnLsu(net.routers[e.i]) else e.m.lsu.(ttl := e.m.lsu.ttl - 1)
  {
    if e.Originate? {
      BroadcastReaches(net.routers[e.i].ifaces, |net.routers[e.i].ifaces|, OwnLsu(net.routers[e.i]), 0, m);
    } else {
      assert m in HandleLsu(net.routers[e.i], e.m.lsu).1;
      var lsu := e.m.lsu.(ttl := e.m.lsu.ttl - 1);
      BroadcastReaches(net.routers[e.i].ifaces, |net.routers[e.i].ifaces|, lsu, lsu.rid, m);
    }
  }

  lemma BagChained(net: Net, e: Event, m: Send)
    requires FloodInv(net) && Enabled(net, e) && Reliable(e) && m in Apply(net, e).bag
    ensures Chained(Apply(net, e), m)
  {
    EventKeeps(net, e);
    if m in net.bag {
      assert Chained(net, m);
      ChainKept(net, Apply(net, e), m);
    } else {
      NewMessage(net, e, m);
      if e.Originate? {
        assert Chain(Apply(net, e), m, [e.i]);
      } else {
        ForwardedIsChained(net, e.i, e.m, m);
      }
    }
  }

  lemma StoredIsCovered(net: Net, e: Event, d: nat, k: nat)
    requires FloodInv(net) && Bounded(net) && Enabled(net, e) && Reliable(e)
    requires d < |net.routers| && k < |Apply(net, e).routers[d].db|
    ensures |Apply(net, e).routers| == |net.routers|
    ensures Covered(Apply(net, e), d, Apply(net, e).routers[d].db[k].rid, Apply(net, e).routers[d].db[k].seqNum)
  {
    assert RouterCovered(net, d);
    DatabaseAfter(net, e, d);
    var db, db' := net.routers[d].db, Apply(net, e).routers[d].db;
    if e.Deliver? && e.i == d && Accepts(net.routers[d], e.m.lsu) {
      assert db' == StoreLsu(db, e.m.lsu);
      if k < |db| && db[k] == db'[k] {
        CoveredKept(net, e, d, db[k].rid, db[k].seqNum);
      } else {
        assert db'[k] == Entry(e.m.lsu.rid, e.m.lsu.seqNum, 0, e.m.lsu.lsas);
        AcceptCovers(net, d, e.m);
      }
    } else {
      assert db' == db;
      CoveredKept(net, e, d, db[k].rid, db[k].seqNum);
    }
  }

  lemma HistoryAfter(net: Net, e: Event, d: nat)
    requires Inv(net) && Enabled(net, e) && Reliable(e) && d < |net.routers|
    ensures |Apply(net, e).history| == |net.history|
    ensures |Apply(net, e).history[d]| == |net.history[d]| + if e == Originate(d) then 1 else 0
  {
  }

  lemma HighestAfter(net: Net, e: Event, d: nat)
    requires Inv(net) && Enabled(net, e) && Reliable(e) && d < |net.routers|
    ensures |Apply(net, e).history| == |net.history|
    ensures HighestNumber(|Apply(net, e).history[d]|)
      == if e == Originate(d) && |net.history[d]| < TWO16 then |net.history[d]| else HighestNumber(|net.history[d]|)
    ensures |Apply(net, e).history[d]| > 0 ==> |net.history[d]| > 0 || e == Originate(d)
  {
    HistoryAfter(net, e, d);
  }

  lemma OriginatorIsCovered(net: Net, d: nat)
    requires FloodInv(net) && Bounded(net) && Enabled(net, Originate(d)) && |net.history[d]| < TWO16
    ensures |Apply(net, Originate(d)).history[d]| == |net.history[d]| + 1
    ensures |Apply(net, Originate(d)).routers| == |net.routers|
    ensures Covered(Apply(net, Originate(d)), d, net.routers[d].rid, |net.history[d]|)
  {
    HistoryAfter(net, Originate(d), d);
    EventKeeps(net, Originate(d));
    assert RouterCovered(net, d) && RouterOk(net, d);
    assert OwnLsu(net.routers[d]).seqNum == |net.history[d]|;
    BroadcastCovers(Apply(net, Originate(d)), d, OwnLsu(net.routers[d]), 0);
  }

  lemma OriginStaysCovered(net: Net, e: Event, d: nat)
    requires FloodInv(net) && Enabled(net, e) && Reliable(e) && d < |net.routers| && |net.history[d]| > 0
    ensures |Apply(net, e).routers| == |net.routers|
    ensures Covered(Apply(net, e), d, net.routers[d].rid, HighestNumber(|net.history[d]|))
  {
    assert RouterCovered(net, d);
    CoveredKept(net, e, d, net.routers[d].rid, HighestNumber(|net.history[d]|));
  }

  lemma OriginIsCovered(net: Net, e: Event, d: nat)
    requires FloodInv(net) && Bounded(net) && Enabled(net, e) && Reliable(e) && d < |net.routers|
    ensures var after := Apply(net, e);
      && |after.routers| == |net.routers| == |after.history|
      && (|after.history[d]| > 0 ==> Covered(after, d, net.routers[d].rid, HighestNumber(|after.history[d]|)))
  {
    HighestAfter(net, e, d);
    if e == Originate(d) && |net.history[d]| < TWO16 {
      OriginatorIsCovered(net, d);
    } else if |net.history[d]| > 0 {
      OriginStaysCovered(net, e, d);
    }
  }

  lemma EventFloods(net: Net, e: Event)
    requires FloodInv(net) && Bounded(net) && Enabled(net, e) && Reliable(e)
    ensures FloodInv(Apply(net, e)) && Keeps(net, Apply(net, e))
  {
    EventHolds(net, e);
    EventKeeps(net, e);
    var after := Apply(net, e);
    forall m | m in after.bag ensures Chained(after, m) {
      BagChained(net, e, m);
    }
    forall d | 0 <= d < |net.routers| ensures RouterCovered(after, d) {
      OriginIsCovered(net, e, d);
      forall k | 0 <= k < |after.routers[d].db|
        ensures Covered(after, d, after.routers[d].db[k].rid, after.routers[d].db[k].seqNum)
      {
        StoredIsCovered(net, e, d, k);
      }
    }
  }

  ghost predicate ReliableRun(states: seq<Net>, events: seq<Event>) {
    && Run(states, events) && Bounded(states[|events|])
    && AllReliable(events)
  }

  lemma {:induction false} ReliableRunHolds(states: seq<Net>, events: seq<Event>, a: nat, b: nat)
    requires ReliableRun(states, events) && a <= b < |states|
    ensures FloodInv(states[b]) && Bounded(states[b]) && Keeps(states[a], states[b])
    decreases b
  {
    RunHolds(states, events, b, |events|);
    RunHolds(states, events, b, b);
    if b == 0 {
      forall d | 0 <= d < |states[0].routers| ensures RouterCovered(states[0], d) {}
    } else {
      ReliableRunHolds(states, events, if a < b then a else b - 1, b - 1);
      RunHolds(states, events, b - 1, |events|);
      assert StepOk(states, events, b - 1);
      EventFloods(states[b - 1], events[b - 1]);
    }
  }

  /** Each router is a neighbour of the one before it. */
  ghost predicate NeighbourPath(net: Net, path: seq<nat>) {
    && |path| > 0
    && (forall j :: 0 <= j < |path| ==> path[j] < |net.routers|)
    && (forall j, k :: 0 <= j < |path| && 0 <= k < |path| && k == j + 1 ==>
          IsNeighbour(net.routers[path[j]].ifaces, net.routers[path[k]].rid))
  }

  lemma {:induction false} QuietPathHolds(net: Net, path: seq<nat>, n: nat)
    requires FloodInv(net) && Bounded(net) && net.bag == multiset{} && NeighbourPath(net, path)
    requires n < |path| && |net.history[path[0]]| > 0
    ensures path[n] == path[0] || Holds(net, path[n], net.routers[path[0]].rid, HighestNumber(|net.history[path[0]]|))
  {
    if n > 0 {
      QuietPathHolds(net, path, n - 1);
      var o, d, e := path[0], path[n - 1], path[n];
      var rid, s := net.routers[o].rid, HighestNumber(|net.history[o]|);
      assert RouterCovered(net, d);
      assert IsNeighbour(net.routers[d].ifaces, net.routers[e].rid);
      if d == o {
        assert Covered(net, d, rid, s);
        assert e != o ==> Served(net, e, rid, s);
      } else {
        var k :| 0 <= k < |net.routers[d].db| && net.routers[d].db[k].rid == rid && net.routers[d].db[k].seqNum >= s;
        assert Covered(net, d, rid, net.routers[d].db[k].seqNum);
        assert e != o ==> Served(net, e, rid, net.routers[d].db[k].seqNum);
      }
    }
  }

  /** Whatever the router has originated says what its neighbour lists say now. */
  ghost predicate Current(net: Net, o: nat) {
    |net.history| == |net.routers|
    && (o < |net.routers| ==> forall s :: 0 <= s < |net.history[o]| ==> net.history[o][s] == Own(net, o))
  }

  /** What the router advertises now. */
  function Own(net: Net, o: nat): seq<Lsa>
    requires o < |net.routers|
  {
    Advertise(net.routers[o].ifaces, |net.routers[o].ifaces|)
  }

  lemma StepKeepsCurrent(net: Net, e: Event, o: nat)
    requires Current(net, o) && Enabled(net, e) && Reliable(e)
    ensures Current(Apply(net, e), o)
  {
    var after := Apply(net, e);
    if o < |net.routers| {
      assert after.routers[o].ifaces == net.routers[o].ifaces;
      assert after.history[o] == net.history[o] || after.history[o] == net.history[o] + [Own(net, o)];
    }
  }

  /** Without neighbour changes nothing outdated is ever originated. */
  lemma {:induction false} HistoryIsCurrent(states: seq<Net>, events: seq<Event>, t: nat, o: nat)
    requires ReliableRun(states, events) && t < |states|
    ensures Current(states[t], o)
  {
    if t > 0 {
      HistoryIsCurrent(states, events, t - 1, o);
      assert StepOk(states, events, t - 1);
      StepKeepsCurrent(states[t - 1], events[t - 1], o);
    }
  }

  /** The router stores the content of the origin's newest LSU, under the highest number the origin has used. */
  ghost predicate StoresNewest(net: Net, o: nat, d: nat)
    requires o < |net.routers| == |net.history| && d < |net.routers| && |net.history[o]| > 0
  {
    exists k :: 0 <= k < |net.routers[d].db|
      && net.routers[d].db[k].rid == net.routers[o].rid
      && net.routers[d].db[k].seqNum == HighestNumber(|net.history[o]|)
      && net.routers[d].db[k].lsas == net.history[o][|net.history[o]| - 1] == Own(net, o)
  }

  /** An entry carries what the origin has recorded for its number. */
  lemma EntryIsRecorded(net: Net, o: nat, d: nat, k: nat) returns (j: nat)
    requires Inv(net) && o < |net.routers| && d < |net.routers| && k < |net.routers[d].db|
    requires net.routers[d].db[k].rid == net.routers[o].rid
    ensures j < |net.history[o]| && net.routers[d].db[k].seqNum == U16(j)
    ensures net.routers[d].db[k].lsas == net.history[o][j]
  {
    var e := net.routers[d].db[k];
    assert RouterOk(net, d);
    assert EntryOk(net, net.routers[d].rid, e);
    var o': nat, j': nat :| RecordedAt(net, o', j', e.rid, e.seqNum, e.lsas);
    j := j';
  }

  /** Flooding completeness: with at most 256 routers, once nothing is in flight every router that can be reached from
      an origin stores what the origin's newest LSU says, however many it has sent. */
  lemma FloodingComplete(states: seq<Net>, events: seq<Event>, t: nat, path: seq<nat>)
    requires ReliableRun(states, events) && t < |states| && states[t].bag == multiset{}
    requires NeighbourPath(states[t], path) && path[0] != path[|path| - 1]
    requires |states[t].history| == |states[t].routers| && |states[t].history[path[0]]| > 0
    ensures StoresNewest(states[t], path[0], path[|path| - 1])
  {
    ReliableRunHolds(states, events, t, t);
    HistoryIsCurrent(states, events, t, path[0]);
    var net, o, d := states[t], path[0], path[|path| - 1];
    QuietPathHolds(net, path, |path| - 1);
    var k :| 0 <= k < |net.routers[d].db| && net.routers[d].db[k].rid == net.routers[o].rid
             && net.routers[d].db[k].seqNum >= HighestNumber(|net.history[o]|);
    var j := EntryIsRecorded(net, o, d, k);
    assert net.routers[d].db[k].seqNum <= j;
  }

  lemma HeldIsOlder(net: Net, i: nat, s: int, lsu: Lsu)
    requires FloodInv(net) && i < |net.routers| && Holds(net, i, lsu.rid, s) && Accepts(net.routers[i], lsu)
    ensures s < lsu.seqNum
  {
    assert RouterOk(net, i);
  }

  /** A router accepts an LSU (origin, seq) at most once: what it accepts from an origin is ever newer. */
  lemma AcceptedAtMostOnce(states: seq<Net>, events: seq<Event>, a: nat, b: nat)
    requires ReliableRun(states, events) && a < b < |events|
    requires events[a].Deliver? && events[b].Deliver? && events[a].i == events[b].i
    requires events[a].i < |states[a].routers| && Accepts(states[a].routers[events[a].i], events[a].m.lsu)
    requires events[b].i < |states[b].routers| && Accepts(states[b].routers[events[b].i], events[b].m.lsu)
    requires events[a].m.lsu.rid == events[b].m.lsu.rid
    ensures events[a].m.lsu.seqNum < events[b].m.lsu.seqNum
  {
    var i, m := events[a].i, events[a].m;
    ReliableRunHolds(states, events, a, a);
    ReliableRunHolds(states, events, a + 1, b);
    assert StepOk(states, events, a);
    DeliveredIsHeld(states[a], i, m);
    HeldIsOlder(states[b], i, m.lsu.seqNum, events[b].m.lsu);
  }

  /** With at most 255 routers the TTL never stops an accepted LSU from being passed on. */
  lemma TtlNeverSuppresses(states: seq<Net>, events: seq<Event>, t: nat)
    requires ReliableRun(states, events) && t < |events| && |states[t].routers| <= MAX_LSU_TTL
    requires events[t].Deliver? && events[t].i < |states[t].routers|
    requires Accepts(states[t].routers[events[t].i], events[t].m.lsu)
    ensures events[t].m.lsu.ttl > 1
  {
    ReliableRunHolds(states, events, t, t);
    var net, i, m := states[t], events[t].i, events[t].m;
    assert StepOk(states, events, t);
    assert Chained(net, m);
    var path :| Chain(net, m, path);
    AcceptExtendsChain(net, i, m, path);
    DistinctIsShort(|net.routers|, path + [i]);
  }

  // ---- Reachable states ----

  predicate AllReliable(events: seq<Event>) { forall k :: 0 <= k < |events| ==> Reliable(events[k]) }

  /** The run ends here; a reliable one has no losses, aging or changes of neighbours. */
  ghost predicate EndsAt(states: seq<Net>, events: seq<Event>, net: Net, reliable: bool) {
    Run(states, events) && states[|events|] == net && (reliable ==> AllReliable(events))
  }

  ghost predicate Reached(net: Net, reliable: bool) {
    exists states: seq<Net>, events: seq<Event> :: EndsAt(states, events, net, reliable)
  }

  lemma ReliableGrows(events: seq<Event>, e: Event)
    requires AllReliable(events) && Reliable(e)
    ensures AllReliable(events + [e])
  {
  }

  lemma ReachedStep(net: Net, e: Event, after: Net, reliable: bool)
    requires Reached(net, reliable) && Enabled(net, e) && (reliable ==> Reliable(e))
    requires |net.routers| == |net.history| && after == Apply(net, e)
    ensures Reached(after, reliable)
  {
    var states: seq<Net>, events: seq<Event> :| EndsAt(states, events, net, reliable);
    RunGrows(states, events, e, after);
    if reliable {
      ReliableGrows(events, e);
    }
    assert EndsAt(states + [after], events + [e], after, reliable);
  }
}
