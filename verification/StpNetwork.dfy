/** A network of switches joined by point-to-point links. A config that has been sent stays in
    `sent` for ever and may be delivered at any later moment, any number of times or never: loss,
    duplication and reordering are all runs of this system. */
module StpNetwork {
  import opened MachineInts
  import opened Options
  import opened Pigeonhole
  import opened StpVector
  import opened StpSwitch

  type End = (nat, nat)  // (switch, port)

  datatype Topology = Topology(ids: seq<nat>, nports: seq<nat>, peer: map<End, End>) {
    ghost predicate Valid() {
      && 0 < |ids| == |nports| && |ids| < TWO31
      && (forall i, j :: 0 <= i < j < |ids| ==> ids[i] != ids[j])
      && (forall i :: 0 <= i < |ids| ==> 0 < nports[i] <= STP_MAX_PORTS)
      && (forall e, f :: Linked(e, f) ==> IsEnd(e) && IsEnd(f) && e.0 != f.0 && Linked(f, e))
    }

    /** The two ends of one link. */
    ghost predicate Linked(e: End, f: End) {
      e in peer && peer[e] == f
    }

    predicate IsEnd(e: End) {
      e.0 < |ids| && |nports| == |ids| && e.1 < nports[e.0]
    }

    ghost predicate Adjacent(i: nat, j: nat) {
      exists p: nat, q: nat :: Linked((i, p), (j, q))
    }

    ghost predicate Walk(path: seq<nat>) {
      && 0 < |path|
      && (forall k :: 0 <= k < |path| ==> path[k] < |ids|)
      && (forall j, k :: 0 <= j < |path| && 0 <= k < |path| && k == j + 1 ==> Adjacent(path[j], path[k]))
    }

    ghost predicate WalkBetween(i: nat, j: nat, path: seq<nat>) {
      Walk(path) && path[0] == i && path[|path| - 1] == j
    }

    /** `d` is the number of links on a shortest walk from `i` to `j`. */
    ghost predicate HopDistance(i: nat, j: nat, d: int) {
      && (exists path :: WalkBetween(i, j, path) && |path| == d + 1)
      && (forall path :: WalkBetween(i, j, path) ==> d + 1 <= |path|)
    }

    ghost predicate Reachable(i: nat, j: nat) {
      exists path :: WalkBetween(i, j, path)
    }

    ghost predicate Connected() {
      forall i, j :: 0 <= i < |ids| && 0 <= j < |ids| ==> Reachable(i, j)
    }

    ghost predicate IsMinId(m: nat) {
      m < |ids| && forall i :: 0 <= i < |ids| ==> ids[m] <= ids[i]
    }
  }

  /** A config on its way to port `dst.1` of switch `dst.0`. */
  datatype Message = Message(dst: End, config: Config)

  datatype Net = Net(switches: seq<Switch>, sent: set<Message>)

  datatype Event = Deliver(m: Message) | Tick(i: nat, now: int)

  function Emit(topo: Topology, i: nat, out: seq<Output>): set<Message> {
    set o | o in out && (i, o.port) in topo.peer :: Message(topo.peer[(i, o.port)], o.config)
  }

  /** Switch `i` is as stp_init leaves it, at whatever time. */
  ghost predicate Starts(topo: Topology, net: Net, i: nat)
    requires i < |net.switches| == |topo.ids| == |topo.nports|
  {
    exists now :: net.switches[i] == Init(topo.ids[i], topo.nports[i], now)
  }

  ghost predicate InitNet(topo: Topology, net: Net) {
    && |net.switches| == |topo.ids| == |topo.nports|
    && net.sent == {}
    && forall i {:trigger Starts(topo, net, i)} :: 0 <= i < |topo.ids| ==> Starts(topo, net, i)
  }

  predicate Enabled(topo: Topology, net: Net, e: Event) {
    match e
    case Deliver(m) =>
      m in net.sent && m.dst.0 < |net.switches| && m.dst.1 < |net.switches[m.dst.0].ports|
    case Tick(i, now) => i < |net.switches|
  }

  function Apply(topo: Topology, net: Net, e: Event): Net
    requires Enabled(topo, net, e)
  {
    match e
    case Deliver(m) =>
      var (s, out) := HandleConfig(net.switches[m.dst.0], m.dst.1, m.config);
      Net(net.switches[m.dst.0 := s], net.sent + Emit(topo, m.dst.0, out))
    case Tick(i, now) =>
      var (s, out) := TimerRunOnce(net.switches[i], now);
      Net(net.switches[i := s], net.sent + Emit(topo, i, out))
  }

  /** The event installs a config, as opposed to being answered or being a timer tick. */
  predicate Accepts(net: Net, e: Event) {
    && e.Deliver? && e.m.dst.0 < |net.switches| && e.m.dst.1 < |net.switches[e.m.dst.0].ports|
    && ConfigPriorityCmp(net.switches[e.m.dst.0].ports[e.m.dst.1], e.m.config)
  }

  predicate StepOk(topo: Topology, states: seq<Net>, events: seq<Event>, k: nat)
    requires |states| == |events| + 1 && k < |events|
  {
    Enabled(topo, states[k], events[k]) && states[k + 1] == Apply(topo, states[k], events[k])
  }

  /** A finite run: `states[k + 1]` is `states[k]` after `events[k]`. */
  ghost predicate Run(topo: Topology, states: seq<Net>, events: seq<Event>) {
    && |states| == |events| + 1
    && InitNet(topo, states[0])
    && forall k {:trigger StepOk(topo, states, events, k)} :: 0 <= k < |events| ==> StepOk(topo, states, events, k)
  }

  // ---- The inductive invariant ----

  /** A simple path of exactly `c` links from `i` to a switch with id `r`, on which the switch
      `k` links away believes something no worse than (r, c - k). */
  ghost predicate Witness(topo: Topology, net: Net, i: nat, r: nat, c: int, path: seq<nat>) {
    && |path| == c + 1 && topo.Walk(path) && path[0] == i
    && |net.switches| == |topo.ids|
    && topo.ids[path[c]] == r
    && Distinct(path)
    && (forall k :: 0 <= k < |path| ==>
          PairLe(net.switches[path[k]].root, net.switches[path[k]].cost, r, c - k))
  }

  ghost predicate Witnessed(topo: Topology, net: Net, i: nat, r: nat, c: int) {
    exists path :: Witness(topo, net, i, r, c, path)
  }

  /** A stored vector, read back as the config that installed it. */
  function PortVector(p: Port): Config {
    Config(p.root, p.cost, p.switchId, p.port)
  }

  /** A designated port carries the switch's own pair; any other port carries a config that was
      sent to it from the other end of its link. */
  ghost predicate PortOk(n: nat, sent: set<Message>, i: nat, s: Switch, k: nat)
    requires k < |s.ports|
  {
    var p := s.ports[k];
    && p.portId == PortId(k) && 0 <= p.cost < n
    && if IsDesignated(s.id, p) then p.root == s.root && p.cost == s.cost
       else Message((i, k), PortVector(p)) in sent
  }

  /** The invariant of one switch, apart from what it says about the others. */
  ghost predicate LocalOk(topo: Topology, sent: set<Message>, i: nat, s: Switch)
    requires topo.Valid() && i < |topo.ids|
  {
    && s.id == topo.ids[i] && |s.ports| == topo.nports[i]
    && (forall k {:trigger PortOk(|topo.ids|, sent, i, s, k)} :: 0 <= k < |s.ports| ==>
      PortOk(|topo.ids|, sent, i, s, k))
    && s == UpdateStatus(s)
    && PairLe(s.root, s.cost, s.id, 0)
    && (s.timer.active <==> IsRoot(s))
  }

  /** A config comes from the far end of the link it arrives on, with a cost some path can have. */
  ghost predicate OriginOk(topo: Topology, m: Message)
    requires topo.Valid()
  {
    && m.dst in topo.peer
    && var src := topo.peer[m.dst];
      && topo.Linked(m.dst, src)
      && m.config.switchId == topo.ids[src.0] && m.config.portId == PortId(src.1)
      && 0 <= m.config.cost < |topo.ids| && (m.config.cost == 0 ==> m.config.root == topo.ids[src.0])
  }

  ghost predicate SentOk(topo: Topology, sent: set<Message>)
    requires topo.Valid()
  {
    forall m {:trigger OriginOk(topo, m)} :: m in sent ==> OriginOk(topo, m)
  }

  /** The sender of a config has a path for what it said, and still believes nothing worse. */
  ghost predicate MessageOk(topo: Topology, net: Net, m: Message) {
    m.dst in topo.peer && Witnessed(topo, net, topo.peer[m.dst].0, m.config.root, m.config.cost)
  }

  ghost predicate SwitchOk(topo: Topology, net: Net, i: nat)
    requires topo.Valid() && i < |topo.ids| == |net.switches|
  {
    && LocalOk(topo, net.sent, i, net.switches[i])
    && Witnessed(topo, net, i, net.switches[i].root, net.switches[i].cost)
  }

  // The triggers keep the verifier from chasing witnesses and root ports through the network.
  ghost predicate Inv(topo: Topology, net: Net) {
    && topo.Valid()
    && |net.switches| == |topo.ids|
    && SentOk(topo, net.sent)
    && (forall m {:trigger MessageOk(topo, net, m)} :: m in net.sent ==> MessageOk(topo, net, m))
    && (forall i {:trigger SwitchOk(topo, net, i)} :: 0 <= i < |topo.ids| ==> SwitchOk(topo, net, i))
  }

  /** Every switch's pair in `after` is no worse than in `before`. */
  ghost predicate Improves(before: Net, after: Net) {
    && |before.switches| == |after.switches|
    && forall i :: 0 <= i < |before.switches| ==>
         PairLe(after.switches[i].root, after.switches[i].cost, before.switches[i].root, before.switches[i].cost)
  }

  lemma WitnessBounds(topo: Topology, net: Net, i: nat, r: nat, c: int)
    requires Witnessed(topo, net, i, r, c)
    ensures 0 <= c < |topo.ids|
    ensures i < |topo.ids| == |net.switches| && PairLe(net.switches[i].root, net.switches[i].cost, r, c)
    ensures c == 0 ==> r == topo.ids[i]
  {
    var path :| Witness(topo, net, i, r, c, path);
    DistinctIsShort(|topo.ids|, path);
    assert path[0] == i;
  }

  lemma WitnessSurvives(topo: Topology, before: Net, after: Net, i: nat, r: nat, c: int)
    requires Witnessed(topo, before, i, r, c) && Improves(before, after)
    ensures Witnessed(topo, after, i, r, c)
  {
    var path :| Witness(topo, before, i, r, c, path);
    assert Witness(topo, after, i, r, c, path);
  }

  /** Hearing (r, c) from a neighbour yields a witness for (r, c + 1): the hearer is not on the
      neighbour's path, because everything on it already believes something better. */
  lemma WitnessExtends(topo: Topology, net: Net, i: nat, j: nat, r: nat, c: int)
    requires topo.Valid() && i < |topo.ids| == |net.switches| && topo.Adjacent(i, j)
    requires net.switches[i].root == r && net.switches[i].cost == c + 1
    requires Witnessed(topo, net, j, r, c)
    ensures Witnessed(topo, net, i, r, c + 1)
  {
    var path :| Witness(topo, net, j, r, c, path);
    var longer := [i] + path;
    assert forall k :: 1 <= k < |longer| ==> longer[k] == path[k - 1];
    assert forall k :: 0 <= k < |path| ==> path[k] != i;
    assert Witness(topo, net, i, r, c + 1, longer);
  }

  // ---- One switch handling one event ----

  /** On point-to-point links two ports never carry the same non-designated vector. */
  lemma PortsNeverTie(topo: Topology, sent: set<Message>, i: nat, a: nat, pa: Port, b: nat, pb: Port)
    requires topo.Valid() && SentOk(topo, sent) && i < |topo.ids| && a != b
    requires Message((i, a), PortVector(pa)) in sent && Message((i, b), PortVector(pb)) in sent
    ensures !SameVector(pa, pb)
  {
    assert OriginOk(topo, Message((i, a), PortVector(pa))) && OriginOk(topo, Message((i, b), PortVector(pb)));
    var sa, sb := topo.peer[(i, a)], topo.peer[(i, b)];
    assert topo.Linked(sa, (i, a)) && topo.Linked(sb, (i, b));
  }

  /** The state after the accepted config has been stored and before the status is recomputed. */
  function Replaced(s: Switch, p: nat, c: Config): Switch
    requires p < |s.ports|
  {
    s.(ports := s.ports[p := ReplacePortConfig(s.ports[p], c)])
  }

  lemma ReplacedPorts(topo: Topology, sent: set<Message>, i: nat, s: Switch, p: nat, c: Config)
    requires topo.Valid() && SentOk(topo, sent) && i < |topo.ids| && LocalOk(topo, sent, i, s)
    requires p < |s.ports| && Message((i, p), c) in sent
    ensures var t := Replaced(s, p, c);
      && !IsDesignated(t.id, t.ports[p])
      && PortVector(t.ports[p]) == c
      && (forall k :: 0 <= k < |t.ports| ==>
            t.ports[k].portId == PortId(k) && 0 <= t.ports[k].cost < |topo.ids|
            && (IsDesignated(t.id, t.ports[k]) || Message((i, k), PortVector(t.ports[k])) in sent))
  {
    assert OriginOk(topo, Message((i, p), c));
    assert Int32(c.cost) == c.cost;
    var src := topo.peer[(i, p)];
    assert topo.ids[src.0] != s.id;
    var t := Replaced(s, p, c);
    forall k | 0 <= k < |t.ports|
      ensures t.ports[k].portId == PortId(k) && 0 <= t.ports[k].cost < |topo.ids|
        && (IsDesignated(t.id, t.ports[k]) || Message((i, k), PortVector(t.ports[k])) in sent)
    {
      assert PortOk(|topo.ids|, sent, i, s, k);
    }
  }

  lemma ReplacedNeverTies(topo: Topology, sent: set<Message>, i: nat, s: Switch, p: nat, c: Config, b: nat)
    requires topo.Valid() && SentOk(topo, sent) && i < |topo.ids| && LocalOk(topo, sent, i, s)
    requires p < |s.ports| && Message((i, p), c) in sent
    requires b < |s.ports| && !IsDesignated(s.id, Replaced(s, p, c).ports[b])
    ensures NoTie(s.id, Replaced(s, p, c).ports, b)
  {
    ReplacedPorts(topo, sent, i, s, p, c);
    var t := Replaced(s, p, c);
    forall k | 0 <= k < |t.ports| && k != b && !IsDesignated(t.id, t.ports[k])
      ensures !SameVector(t.ports[k], t.ports[b])
    {
      PortsNeverTie(topo, sent, i, k, t.ports[k], b, t.ports[b]);
    }
  }

  /** The accepted vector is strictly below the one it replaces. */
  lemma ReplacementIsBetter(topo: Topology, sent: set<Message>, i: nat, s: Switch, p: nat, c: Config)
    requires topo.Valid() && SentOk(topo, sent) && i < |topo.ids| && LocalOk(topo, sent, i, s)
    requires p < |s.ports| && Message((i, p), c) in sent && ConfigPriorityCmp(s.ports[p], c)
    ensures PortPriorityCmp(s.ports[p], Replaced(s, p, c).ports[p])
  {
    assert PortOk(|topo.ids|, sent, i, s, p) && OriginOk(topo, Message((i, p), c));
    AcceptanceIsStrictImprovement(s.ports[p], c);
  }

  /** A first config can only be accepted from a switch that names a smaller root. */
  lemma FirstConfigNamesSmallerRoot(topo: Topology, sent: set<Message>, i: nat, s: Switch, p: nat, c: Config)
    requires topo.Valid() && SentOk(topo, sent) && i < |topo.ids| && LocalOk(topo, sent, i, s)
    requires p < |s.ports| && Message((i, p), c) in sent && ConfigPriorityCmp(s.ports[p], c)
    requires s.rootPort == None
    ensures IsDesignated(s.id, s.ports[p]) && c.root < s.root
  {
    BestPortIsFirstMinimum(s.id, s.ports, |s.ports|);
    assert PortOk(|topo.ids|, sent, i, s, p) && OriginOk(topo, Message((i, p), c));
    assert topo.ids[topo.peer[(i, p)].0] != topo.ids[i];
    assert U32(s.ports[p].cost) == 0;
  }

  /** After an acceptance the switch has a root port, and its pair is one link more than that port holds. */
  lemma AcceptHasRootPort(topo: Topology, sent: set<Message>, i: nat, s: Switch, p: nat, c: Config)
    requires topo.Valid() && SentOk(topo, sent) && i < |topo.ids| && LocalOk(topo, sent, i, s)
    requires p < |s.ports| && Message((i, p), c) in sent && ConfigPriorityCmp(s.ports[p], c)
    ensures var t, u := Replaced(s, p, c), UpdateStatus(Replaced(s, p, c));
      && u.rootPort.Some? && u.rootPort.value < |u.ports| && u.ports == t.ports
      && u.rootPort == BestPort(t.id, t.ports, |t.ports|)
      && !IsDesignated(u.id, u.ports[u.rootPort.value])
      && u.root == u.ports[u.rootPort.value].root && u.cost == u.ports[u.rootPort.value].cost + 1
  {
    var t := Replaced(s, p, c);
    ReplacedPorts(topo, sent, i, s, p, c);
    BestPortIsFirstMinimum(t.id, t.ports, |t.ports|);
    assert BestPort(t.id, t.ports, |t.ports|).Some?;
    SmallInt(t.ports[BestPort(t.id, t.ports, |t.ports|).value].cost + 1);
  }

  /** Accepting a config never makes the switch's own pair worse. */
  lemma AcceptImprovesPair(topo: Topology, sent: set<Message>, i: nat, s: Switch, p: nat, c: Config)
    requires topo.Valid() && SentOk(topo, sent) && i < |topo.ids| && LocalOk(topo, sent, i, s)
    requires p < |s.ports| && Message((i, p), c) in sent && ConfigPriorityCmp(s.ports[p], c)
    ensures var u := UpdateStatus(Replaced(s, p, c));
      && u.rootPort.Some? && u.rootPort.value < |u.ports|
      && !IsDesignated(u.id, u.ports[u.rootPort.value])
      && u.root == u.ports[u.rootPort.value].root && u.cost == u.ports[u.rootPort.value].cost + 1
      && PairLe(u.root, u.cost, s.root, s.cost)
  {
    var t := Replaced(s, p, c);
    ReplacedPorts(topo, sent, i, s, p, c);
    BestPortIsFirstMinimum(t.id, t.ports, |t.ports|);
    AcceptHasRootPort(topo, sent, i, s, p, c);
    var rp := BestPort(t.id, t.ports, |t.ports|).value;
    if s.rootPort == None {
      FirstConfigNamesSmallerRoot(topo, sent, i, s, p, c);
      assert AtMost(t.ports[rp], t.ports[p]);
    } else {
      BestPortIsFirstMinimum(s.id, s.ports, |s.ports|);
      ReplacementIsBetter(topo, sent, i, s, p, c);
      var b := s.rootPort.value;
      assert PortOk(|topo.ids|, sent, i, s, b);
      SmallInt(s.ports[b].cost + 1);
      assert AtMost(t.ports[rp], t.ports[b]) && AtMost(t.ports[b], s.ports[b]);
    }
  }

  /** Accepting a config keeps the local invariant; the ports are those after replacement, with
      every designated one brought to the new pair and no port promoted. */
  lemma AcceptKeepsLocal(topo: Topology, sent: set<Message>, i: nat, s: Switch, p: nat, c: Config)
    requires topo.Valid() && SentOk(topo, sent) && i < |topo.ids| && LocalOk(topo, sent, i, s)
    requires p < |s.ports| && Message((i, p), c) in sent && ConfigPriorityCmp(s.ports[p], c)
    ensures var t := Accept(s, p, c);
      && PairLe(t.root, t.cost, s.root, s.cost)
      && t.rootPort.Some? && t.rootPort.value < |t.ports|
      && Message((i, t.rootPort.value), PortVector(t.ports[t.rootPort.value])) in sent
      && t.root == t.ports[t.rootPort.value].root && t.cost == t.ports[t.rootPort.value].cost + 1
      && (t.cost < |topo.ids| ==> LocalOk(topo, sent, i, t))
      && |t.ports| == |s.ports|
      && (forall k :: 0 <= k < |t.ports| ==> RefreshedTo(t, Replaced(s, p, c).ports[k], t.ports[k]))
  {
    var u := UpdateStatus(Replaced(s, p, c));
    var t := Accept(s, p, c);
    ReplacedPorts(topo, sent, i, s, p, c);
    AcceptImprovesPair(topo, sent, i, s, p, c);
    ReplacedNeverTies(topo, sent, i, s, p, c, u.rootPort.value);
    RefreshIsPointwise(u, |u.ports|);
    assert forall k :: 0 <= k < |t.ports| ==> RefreshedTo(u, u.ports[k], t.ports[k]);
    BestPortDependsOnNonDesignated(s.id, u.ports, t.ports, |u.ports|);
    if t.cost < |topo.ids| {
      forall k | 0 <= k < |t.ports| ensures PortOk(|topo.ids|, sent, i, t, k) {
        assert RefreshedTo(u, u.ports[k], t.ports[k]);
      }
    }
  }
}
