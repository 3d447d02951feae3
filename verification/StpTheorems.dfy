/** What the protocol guarantees in every state of every run. */
module StpTheorems {
  import opened MachineInts
  import opened Options
  import opened StpVector
  import opened StpSwitch
  import opened StpNetwork
  import opened StpInvariant

  /** No counting to infinity: what a switch believes is always witnessed by a simple path of
      exactly that many links to a switch with that id, so the cost is below the number of
      switches, never below the true distance, and no believed root is below the smallest id. */
  lemma NoCountingToInfinity(topo: Topology, states: seq<Net>, events: seq<Event>, t: nat, i: nat)
    requires topo.Valid() && Run(topo, states, events) && t < |states| && i < |topo.ids|
    ensures |states[t].switches| == |topo.ids|
    ensures var s := states[t].switches[i];
      && 0 <= s.cost < |topo.ids|
      && (exists path :: Witness(topo, states[t], i, s.root, s.cost, path))
      && (forall j, d :: 0 <= j < |topo.ids| && topo.ids[j] == s.root && topo.HopDistance(i, j, d) ==> d <= s.cost)
      && (forall m: nat :: topo.IsMinId(m) ==> topo.ids[m] <= s.root)
  {
    RunHolds(topo, states, events, t, t);
    var net := states[t];
    var s := net.switches[i];
    assert SwitchOk(topo, net, i);
    WitnessBounds(topo, net, i, s.root, s.cost);
    var path :| Witness(topo, net, i, s.root, s.cost, path);
    forall j, d | 0 <= j < |topo.ids| && topo.ids[j] == s.root && topo.HopDistance(i, j, d) ensures d <= s.cost {
      assert path[s.cost] == j;
      assert topo.WalkBetween(i, j, path);
    }
  }

  /** The switch at the other end of the root port. */
  ghost predicate Parent(topo: Topology, net: Net, i: nat, j: nat) {
    && i < |net.switches| && net.switches[i].rootPort.Some?
    && exists q: nat :: topo.Linked((i, net.switches[i].rootPort.value), (j, q))
  }

  /** In every reachable state the switch behind a root port holds a strictly smaller pair. */
  lemma ParentIsCloser(topo: Topology, net: Net, i: nat)
    requires Inv(topo, net) && i < |topo.ids|
    requires !IsRoot(net.switches[i])
    ensures net.switches[i].rootPort.Some? && net.switches[i].rootPort.value < |net.switches[i].ports|
    ensures exists j: nat :: Parent(topo, net, i, j) && j < |topo.ids|
                        && PairLe(net.switches[j].root, net.switches[j].cost, net.switches[i].root,
                          net.switches[i].cost - 1)
                        && net.switches[i].ports[net.switches[i].rootPort.value].root == net.switches[i].root
  {
    var s := net.switches[i];
    assert SwitchOk(topo, net, i);
    BestPortIsFirstMinimum(s.id, s.ports, |s.ports|);
    var rp := s.rootPort.value;
    assert PortOk(|topo.ids|, net.sent, i, s, rp);
    SmallInt(s.ports[rp].cost + 1);
    var m := Message((i, rp), PortVector(s.ports[rp]));
    assert m in net.sent && OriginOk(topo, m) && MessageOk(topo, net, m);
    var src := topo.peer[(i, rp)];
    WitnessBounds(topo, net, src.0, m.config.root, m.config.cost);
    assert Parent(topo, net, i, src.0);
  }

  /** A root switch has no root port. */
  lemma RootHasNoRootPort(topo: Topology, net: Net, i: nat)
    requires Inv(topo, net) && i < |topo.ids|
    ensures IsRoot(net.switches[i]) <==> net.switches[i].rootPort == None
    ensures IsRoot(net.switches[i]) <==> net.switches[i].cost == 0
  {
    var s := net.switches[i];
    assert SwitchOk(topo, net, i);
    BestPortIsFirstMinimum(s.id, s.ports, |s.ports|);
    if s.rootPort.Some? {
      assert PortOk(|topo.ids|, net.sent, i, s, s.rootPort.value);
      SmallInt(s.ports[s.rootPort.value].cost + 1);
    }
  }

  /** Every switch of the chain is the parent of the one before it. */
  ghost predicate FollowsRootPorts(topo: Topology, net: Net, chain: seq<nat>) {
    && (forall k :: 0 <= k < |chain| ==> chain[k] < |topo.ids|)
    && (forall j, k :: 0 <= j < |chain| && 0 <= k < |chain| && k == j + 1 ==> Parent(topo, net, chain[j], chain[k]))
  }

  lemma {:induction false} ChainDecreases(topo: Topology, net: Net, chain: seq<nat>)
    requires Inv(topo, net) && 1 < |chain|
    requires FollowsRootPorts(topo, net, chain)
    ensures var a, b := net.switches[chain[0]], net.switches[chain[|chain| - 1]];
      PairLess(b.root, b.cost, a.root, a.cost)
  {
    assert Parent(topo, net, chain[0], chain[1]);
    RootHasNoRootPort(topo, net, chain[0]);
    ParentIsCloser(topo, net, chain[0]);
    if |chain| > 2 {
      var rest := chain[1..];
      assert FollowsRootPorts(topo, net, rest) by {
        assert forall k :: 0 <= k < |rest| ==> rest[k] == chain[k + 1];
      }
      ChainDecreases(topo, net, rest);
    }
  }

  /** Loop freedom at every instant: following root ports never leads back to the start. */
  lemma RootPortsNeverCycle(topo: Topology, states: seq<Net>, events: seq<Event>, t: nat, chain: seq<nat>)
    requires topo.Valid() && Run(topo, states, events) && t < |states| && 1 < |chain|
    requires FollowsRootPorts(topo, states[t], chain)
    ensures chain[0] != chain[|chain| - 1]
  {
    RunHolds(topo, states, events, t, t);
    ChainDecreases(topo, states[t], chain);
  }

  /** Beliefs only improve; a switch that stops being root never becomes root again; the hello
      timer is active exactly while the switch is root, which is exactly while it has no root port. */
  lemma BeliefsOnlyImprove(topo: Topology, states: seq<Net>, events: seq<Event>, a: nat, b: nat, i: nat)
    requires topo.Valid() && Run(topo, states, events) && a <= b < |states| && i < |topo.ids|
    ensures |states[a].switches| == |states[b].switches| == |topo.ids|
    ensures var s, u := states[a].switches[i], states[b].switches[i];
      && PairLe(u.root, u.cost, s.root, s.cost)
      && (IsRoot(u) ==> IsRoot(s))
      && (u.timer.active <==> IsRoot(u)) && (IsRoot(u) <==> u.rootPort == None)
  {
    RunHolds(topo, states, events, a, b);
    RunHolds(topo, states, events, a, a);
    RootHasNoRootPort(topo, states[b], i);
    assert SwitchOk(topo, states[a], i) && SwitchOk(topo, states[b], i);
  }

  // ---- Stable states ----

  /** No switch's current config would be accepted by the port at the other end of any of its links. */
  ghost predicate Stable(topo: Topology, net: Net) {
    forall e :: e in topo.peer ==>
      && e.0 < |net.switches| && e.1 < |net.switches[e.0].ports|
      && topo.peer[e].0 < |net.switches| && topo.peer[e].1 < |net.switches[topo.peer[e].0].ports|
      && !ConfigPriorityCmp(net.switches[topo.peer[e].0].ports[topo.peer[e].1], ConfigOf(net.switches[e.0], e.1))
  }

  /** A switch believes at worst one link more than what any of its ports holds. */
  lemma PairWithinPortVector(topo: Topology, sent: set<Message>, i: nat, s: Switch, p: nat)
    requires topo.Valid() && i < |topo.ids| && LocalOk(topo, sent, i, s) && p < |s.ports|
    ensures PairLe(s.root, s.cost, s.ports[p].root, s.ports[p].cost + 1)
    ensures U32(s.ports[p].cost) == s.ports[p].cost
  {
    assert PortOk(|topo.ids|, sent, i, s, p);
    if !IsDesignated(s.id, s.ports[p]) {
      BestPortIsFirstMinimum(s.id, s.ports, |s.ports|);
      var rp := s.rootPort.value;
      assert PortOk(|topo.ids|, sent, i, s, rp);
      SmallInt(s.ports[rp].cost + 1);
      assert AtMost(s.ports[rp], s.ports[p]);
    }
  }

  /** In a stable state neighbours' pairs differ by at most one link. */
  lemma StableNeighbours(topo: Topology, net: Net, i: nat, j: nat)
    requires Inv(topo, net) && Stable(topo, net) && i < |topo.ids| && j < |topo.ids| && topo.Adjacent(i, j)
    ensures PairLe(net.switches[i].root, net.switches[i].cost, net.switches[j].root, net.switches[j].cost + 1)
  {
    var p: nat, q: nat :| topo.Linked((i, p), (j, q));
    assert topo.Linked((j, q), (i, p));
    assert SwitchOk(topo, net, i) && SwitchOk(topo, net, j);
    WitnessBounds(topo, net, j, net.switches[j].root, net.switches[j].cost);
    SmallInt(net.switches[j].cost);
    PairWithinPortVector(topo, net.sent, i, net.switches[i], p);
    assert !ConfigPriorityCmp(net.switches[i].ports[p], ConfigOf(net.switches[j], q));
  }

  lemma {:induction false} StableWithinWalk(topo: Topology, net: Net, m: nat, path: seq<nat>)
    requires Inv(topo, net) && Stable(topo, net) && topo.IsMinId(m)
    requires topo.Walk(path) && path[|path| - 1] == m
    ensures net.switches[path[0]].root == topo.ids[m] && net.switches[path[0]].cost <= |path| - 1
  {
    var i := path[0];
    var s := net.switches[i];
    assert SwitchOk(topo, net, i);
    var w :| Witness(topo, net, i, s.root, s.cost, w);
    assert topo.ids[m] <= topo.ids[w[s.cost]];
    if |path| > 1 {
      var rest := path[1..];
      assert topo.Walk(rest) by {
        assert forall k :: 0 <= k < |rest| ==> rest[k] == path[k + 1];
      }
      StableWithinWalk(topo, net, m, rest);
      StableNeighbours(topo, net, i, path[1]);
    }
  }

  /** Any stable state is the right one. */
  lemma StableIsCorrect(topo: Topology, states: seq<Net>, events: seq<Event>, t: nat, m: nat, i: nat)
    requires topo.Valid() && Run(topo, states, events) && t < |states|
    requires topo.Connected() && topo.IsMinId(m) && i < |topo.ids|
    requires Stable(topo, states[t])
    ensures |states[t].switches| == |topo.ids|
    ensures states[t].switches[i].root == topo.ids[m]
    ensures topo.HopDistance(i, m, states[t].switches[i].cost)
    ensures i == m <==> states[t].switches[i].rootPort == None
    ensures i != m ==> exists j: nat :: Parent(topo, states[t], i, j) && j < |topo.ids|
                                   && topo.HopDistance(j, m, states[t].switches[i].cost - 1)
  {
    RunHolds(topo, states, events, t, t);
    var net := states[t];
    StableDistance(topo, net, m, i);
    RootHasNoRootPort(topo, net, i);
    assert SwitchOk(topo, net, i);
    if i != m {
      assert topo.ids[i] != topo.ids[m];
      ParentIsCloser(topo, net, i);
      var j: nat :| Parent(topo, net, i, j) && j < |topo.ids|
               && PairLe(net.switches[j].root, net.switches[j].cost, net.switches[i].root, net.switches[i].cost - 1);
      StableDistance(topo, net, m, j);
      assert topo.Adjacent(i, j);
      StableNeighbours(topo, net, i, j);
    }
  }

  lemma StableDistance(topo: Topology, net: Net, m: nat, i: nat)
    requires Inv(topo, net) && Stable(topo, net) && topo.Connected() && topo.IsMinId(m) && i < |topo.ids|
    ensures net.switches[i].root == topo.ids[m] && topo.HopDistance(i, m, net.switches[i].cost)
  {
    var s := net.switches[i];
    assert SwitchOk(topo, net, i);
    assert topo.Reachable(i, m);
    forall path | topo.WalkBetween(i, m, path)
      ensures s.root == topo.ids[m] && s.cost + 1 <= |path|
    {
      StableWithinWalk(topo, net, m, path);
    }
    var w :| Witness(topo, net, i, s.root, s.cost, w);
    assert w[s.cost] == m;
    assert topo.WalkBetween(i, m, w);
  }
}
