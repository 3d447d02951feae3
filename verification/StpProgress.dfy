/** Only finitely many configs are ever accepted: each acceptance strictly lowers a natural number
    that nothing else changes. */
module StpProgress {
  import opened MachineInts
  import opened StpVector
  import opened StpSwitch
  import opened StpNetwork
  import opened StpInvariant

  /** How many of the ids are smaller than `x`. */
  function IdRank(ids: seq<nat>, x: nat): (r: nat)
    ensures r <= |ids|
    ensures x in ids ==> r < |ids|
  {
    if ids == [] then 0
    else
      assert x in ids ==> x == ids[0] || x in ids[1..];
      (if ids[0] < x then 1 else 0) + IdRank(ids[1..], x)
  }

  lemma {:induction false} IdRankMonotone(ids: seq<nat>, x: nat, y: nat)
    requires x <= y
    ensures IdRank(ids, x) <= IdRank(ids, y)
    ensures x < y && x in ids ==> IdRank(ids, x) < IdRank(ids, y)
  {
    if ids != [] {
      IdRankMonotone(ids[1..], x, y);
      assert x in ids ==> x == ids[0] || x in ids[1..];
    }
  }

  /** A vector read as a number, most significant field first. */
  function VectorRank(ids: seq<nat>, p: Port): int {
    Digits(Digits(Digits(IdRank(ids, p.root), |ids|, p.cost), |ids|, IdRank(ids, p.switchId)), TWO16, p.port)
  }

  function Digits(high: int, base: nat, low: int): int { high * base + low }

  lemma Distribute(x: int, y: int, b: int)
    ensures (x + y) * b == x * b + y * b
  {
  }

  lemma DigitsOrder(a: int, x: int, b: int, y: int, base: nat)
    requires 0 <= x < base && 0 <= y < base
    ensures a < b || (a == b && x < y) ==> Digits(a, base, x) < Digits(b, base, y)
  {
    if a < b {
      var d := b - a;
      assert d * base >= base;
      Distribute(a, d, base);
    }
  }

  lemma DigitsBound(a: int, bound: nat, base: nat, x: int)
    requires 0 <= a < bound && 0 <= x < base
    ensures 0 <= Digits(a, base, x) < bound * base
  {
    Distribute(a, bound - 1 - a, base);
    Distribute(bound - 1, 1, base);
    assert (bound - 1 - a) * base >= 0 && a * base >= 0;
  }

  /** A vector that some switch could have sent. */
  predicate VectorOk(ids: seq<nat>, p: Port) {
    p.root in ids && p.switchId in ids && 0 <= p.cost < |ids| && 0 <= p.port < TWO16
  }

  lemma RankFollowsPriority(ids: seq<nat>, p: Port, q: Port)
    requires VectorOk(ids, p) && VectorOk(ids, q)
    ensures PortPriorityCmp(p, q) ==> VectorRank(ids, q) < VectorRank(ids, p)
    ensures SameVector(p, q) ==> VectorRank(ids, q) == VectorRank(ids, p)
  {
    if PortPriorityCmp(p, q) {
      var n := |ids|;
      var rp, rq := IdRank(ids, p.root), IdRank(ids, q.root);
      var sp, sq := IdRank(ids, p.switchId), IdRank(ids, q.switchId);
      IdRankMonotone(ids, q.root, if p.root > q.root then p.root else q.root);
      IdRankMonotone(ids, q.switchId, if p.switchId > q.switchId then p.switchId else q.switchId);
      DigitsOrder(rq, q.cost, rp, p.cost, n);
      DigitsOrder(Digits(rq, n, q.cost), sq, Digits(rp, n, p.cost), sp, n);
      DigitsOrder(Digits(Digits(rq, n, q.cost), n, sq), q.port, Digits(Digits(rp, n, p.cost), n, sp), p.port, TWO16);
    }
  }

  lemma RankBound(ids: seq<nat>, p: Port)
    requires VectorOk(ids, p)
    ensures 0 <= VectorRank(ids, p) < |ids| * |ids| * |ids| * TWO16
  {
    var n := |ids|;
    DigitsBound(IdRank(ids, p.root), n, n, p.cost);
    DigitsBound(Digits(IdRank(ids, p.root), n, p.cost), n * n, n, IdRank(ids, p.switchId));
    DigitsBound(Digits(Digits(IdRank(ids, p.root), n, p.cost), n, IdRank(ids, p.switchId)), n * n * n, TWO16, p.port);
  }

  function PortsMeasure(ids: seq<nat>, ports: seq<Port>): int {
    if ports == [] then 0 else VectorRank(ids, ports[0]) + PortsMeasure(ids, ports[1..])
  }

  function NetMeasure(ids: seq<nat>, switches: seq<Switch>): int {
    if switches == [] then 0 else PortsMeasure(ids, switches[0].ports) + NetMeasure(ids, switches[1..])
  }

  lemma {:induction false} PortsMeasureDrops(ids: seq<nat>, a: seq<Port>, b: seq<Port>, p: nat)
    requires |a| == |b|
    requires forall k :: 0 <= k < |a| ==> VectorRank(ids, b[k]) <= VectorRank(ids, a[k])
    ensures PortsMeasure(ids, b) <= PortsMeasure(ids, a)
    ensures p < |a| && VectorRank(ids, b[p]) < VectorRank(ids, a[p]) ==> PortsMeasure(ids, b) < PortsMeasure(ids, a)
  {
    if a != [] {
      PortsMeasureDrops(ids, a[1..], b[1..], if p > 0 then p - 1 else |a|);
    }
  }

  lemma {:induction false} NetMeasureUpdate(ids: seq<nat>, switches: seq<Switch>, i: nat, t: Switch)
    requires i < |switches|
    ensures NetMeasure(ids, switches[i := t]) - NetMeasure(ids, switches)
         == PortsMeasure(ids, t.ports) - PortsMeasure(ids, switches[i].ports)
  {
    if i == 0 {
      assert switches[i := t][1..] == switches[1..];
    } else {
      assert switches[i := t][1..] == switches[1..][i - 1 := t];
      NetMeasureUpdate(ids, switches[1..], i - 1, t);
    }
  }

  /** Every vector held anywhere is one that some switch could have sent. */
  lemma HeldVectorOk(topo: Topology, net: Net, i: nat, k: nat)
    requires Inv(topo, net) && i < |topo.ids| && k < |net.switches[i].ports|
    ensures VectorOk(topo.ids, net.switches[i].ports[k])
  {
    assert SwitchOk(topo, net, i);
    var s := net.switches[i];
    assert PortOk(|topo.ids|, net.sent, i, s, k);
    if IsDesignated(s.id, s.ports[k]) {
      WitnessRoot(topo, net, i, s.root, s.cost);
    } else {
      var m := Message((i, k), PortVector(s.ports[k]));
      assert OriginOk(topo, m) && MessageOk(topo, net, m);
      WitnessRoot(topo, net, topo.peer[m.dst].0, m.config.root, m.config.cost);
    }
  }

  lemma WitnessRoot(topo: Topology, net: Net, i: nat, r: nat, c: int)
    requires Witnessed(topo, net, i, r, c)
    ensures r in topo.ids
  {
    var path :| Witness(topo, net, i, r, c, path);
    assert path[c] < |topo.ids|;
  }

  /** What one acceptance does to the ports of the switch: the config's port gets strictly
      better, no port gets worse, and no port becomes designated again. */
  lemma AcceptImprovesPorts(topo: Topology, sent: set<Message>, i: nat, s: Switch, p: nat, c: Config, k: nat)
    requires topo.Valid() && SentOk(topo, sent) && i < |topo.ids| && LocalOk(topo, sent, i, s)
    requires p < |s.ports| && Message((i, p), c) in sent && ConfigPriorityCmp(s.ports[p], c)
    requires k < |s.ports|
    ensures var t := Accept(s, p, c);
      && |t.ports| == |s.ports|
      && (IsDesignated(s.id, t.ports[k]) ==> IsDesignated(s.id, s.ports[k]))
      && (SameVector(s.ports[k], t.ports[k]) || PortPriorityCmp(s.ports[k], t.ports[k]))
      && PortPriorityCmp(s.ports[p], t.ports[p])
  {
    AcceptKeepsLocal(topo, sent, i, s, p, c);
    ReplacedPorts(topo, sent, i, s, p, c);
    ReplacementIsBetter(topo, sent, i, s, p, c);
    var r, t := Replaced(s, p, c), Accept(s, p, c);
    assert RefreshedTo(t, r.ports[k], t.ports[k]) && RefreshedTo(t, r.ports[p], t.ports[p]);
    assert PortOk(|topo.ids|, sent, i, s, k);
  }

  lemma AcceptanceLowersSwitch(topo: Topology, net: Net, e: Event)
    requires Inv(topo, net) && Enabled(topo, net, e) && Accepts(net, e)
    ensures var s, t := net.switches[e.m.dst.0], Apply(topo, net, e).switches[e.m.dst.0];
      |s.ports| == |t.ports| && PortsMeasure(topo.ids, t.ports) < PortsMeasure(topo.ids, s.ports)
  {
    var after := Apply(topo, net, e);
    var (i, p) := e.m.dst;
    var s, t := net.switches[i], after.switches[i];
    assert SwitchOk(topo, net, i);
    EventHolds(topo, net, e);
    assert e.m == Message((i, p), e.m.config);
    AcceptImprovesPorts(topo, net.sent, i, s, p, e.m.config, p);
    forall k: nat | k < |s.ports|
      ensures VectorRank(topo.ids, t.ports[k]) <= VectorRank(topo.ids, s.ports[k])
      ensures k == p ==> VectorRank(topo.ids, t.ports[k]) < VectorRank(topo.ids, s.ports[k])
    {
      AcceptImprovesPorts(topo, net.sent, i, s, p, e.m.config, k);
      HeldVectorOk(topo, net, i, k);
      HeldVectorOk(topo, after, i, k);
      RankFollowsPriority(topo.ids, s.ports[k], t.ports[k]);
    }
    PortsMeasureDrops(topo.ids, s.ports, t.ports, p);
  }

  /** Each acceptance strictly lowers the measure; replies and timer ticks leave it as it is. */
  lemma EventLowersMeasure(topo: Topology, net: Net, e: Event)
    requires Inv(topo, net) && Enabled(topo, net, e)
    ensures var after := Apply(topo, net, e);
      if Accepts(net, e) then NetMeasure(topo.ids, after.switches) < NetMeasure(topo.ids, net.switches)
      else NetMeasure(topo.ids, after.switches) == NetMeasure(topo.ids, net.switches)
  {
    var i := if e.Deliver? then e.m.dst.0 else e.i;
    NetMeasureUpdate(topo.ids, net.switches, i, Apply(topo, net, e).switches[i]);
    if Accepts(net, e) {
      AcceptanceLowersSwitch(topo, net, e);
    }
  }

  /** All vectors of the switch have a rank below `bound`. */
  predicate RanksBelow(ids: seq<nat>, s: Switch, bound: int) {
    forall k :: 0 <= k < |s.ports| ==> 0 <= VectorRank(ids, s.ports[k]) < bound
  }

  lemma {:induction false} PortsMeasureBound(ids: seq<nat>, ports: seq<Port>, bound: int)
    requires forall k :: 0 <= k < |ports| ==> 0 <= VectorRank(ids, ports[k]) < bound
    ensures 0 <= PortsMeasure(ids, ports) <= |ports| * bound
  {
    if ports != [] {
      PortsMeasureBound(ids, ports[1..], bound);
      Distribute(1, |ports| - 1, bound);
    }
  }

  function PortCount(switches: seq<Switch>): nat {
    if switches == [] then 0 else |switches[0].ports| + PortCount(switches[1..])
  }

  lemma {:induction false} NetMeasureBound(ids: seq<nat>, switches: seq<Switch>, bound: int)
    requires forall i :: 0 <= i < |switches| ==> RanksBelow(ids, switches[i], bound)
    ensures 0 <= NetMeasure(ids, switches) <= PortCount(switches) * bound
  {
    if switches != [] {
      NetMeasureBound(ids, switches[1..], bound);
      PortsMeasureBound(ids, switches[0].ports, bound);
      Distribute(|switches[0].ports|, PortCount(switches[1..]), bound);
    }
  }

  function Acceptances(states: seq<Net>, events: seq<Event>, n: nat): nat
    requires n <= |events| && |states| == |events| + 1
  {
    if n == 0 then 0 else Acceptances(states, events, n - 1) + if Accepts(states[n - 1], events[n - 1]) then 1 else 0
  }

  lemma {:induction false} AcceptancesAreMeasured(topo: Topology, states: seq<Net>, events: seq<Event>, n: nat)
    requires topo.Valid() && Run(topo, states, events) && n <= |events|
    ensures Acceptances(states, events, n) + NetMeasure(topo.ids, states[n].switches)
         <= NetMeasure(topo.ids, states[0].switches)
  {
    if n > 0 {
      AcceptancesAreMeasured(topo, states, events, n - 1);
      RunHolds(topo, states, events, n - 1, n - 1);
      assert StepOk(topo, states, events, n - 1);
      EventLowersMeasure(topo, states[n - 1], events[n - 1]);
    }
  }

  /** However long a run is, the number of accepted configs has a bound that depends only on the
      topology: the number of ports times n^3 * 2^16. */
  lemma FinitelyManyAcceptances(topo: Topology, states: seq<Net>, events: seq<Event>)
    requires topo.Valid() && Run(topo, states, events)
    ensures Acceptances(states, events, |events|)
         <= PortCount(states[0].switches) * (|topo.ids| * |topo.ids| * |topo.ids| * TWO16)
  {
    AcceptancesAreMeasured(topo, states, events, |events|);
    RunHolds(topo, states, events, 0, 0);
    RunHolds(topo, states, events, |events|, |events|);
    StateMeasureBound(topo, states[0]);
    StateMeasureBound(topo, states[|events|]);
  }

  lemma StateMeasureBound(topo: Topology, net: Net)
    requires Inv(topo, net)
    ensures 0 <= NetMeasure(topo.ids, net.switches)
         <= PortCount(net.switches) * (|topo.ids| * |topo.ids| * |topo.ids| * TWO16)
  {
    var bound := |topo.ids| * |topo.ids| * |topo.ids| * TWO16;
    forall i: nat | i < |net.switches| ensures RanksBelow(topo.ids, net.switches[i], bound) {
      forall k: nat | k < |net.switches[i].ports| ensures 0 <= VectorRank(topo.ids, net.switches[i].ports[k]) < bound {
        HeldVectorOk(topo, net, i, k);
        RankBound(topo.ids, net.switches[i].ports[k]);
      }
    }
    NetMeasureBound(topo.ids, net.switches, bound);
  }

  /** Port `k` of switch `i` is no worse later on, and is not designated again. */
  ghost predicate PortImproved(topo: Topology, before: Net, after: Net, i: nat, k: nat) {
    && |before.switches| == |after.switches| == |topo.ids| == |topo.nports| && i < |topo.ids|
    && var s, t := before.switches[i], after.switches[i];
      && |s.ports| == |t.ports| == topo.nports[i] && s.id == t.id && k < |s.ports|
      && s.ports[k].portId == t.ports[k].portId
      && (IsDesignated(t.id, t.ports[k]) ==> IsDesignated(s.id, s.ports[k]))
      && (SameVector(s.ports[k], t.ports[k]) || PortPriorityCmp(s.ports[k], t.ports[k]))
  }

  /** What any event does to any port. */
  lemma EventImprovesPort(topo: Topology, net: Net, e: Event, i: nat, k: nat)
    requires Inv(topo, net) && Enabled(topo, net, e) && i < |topo.ids| && k < topo.nports[i]
    ensures PortImproved(topo, net, Apply(topo, net, e), i, k)
  {
    assert SwitchOk(topo, net, i);
    if Accepts(net, e) && e.m.dst.0 == i {
      assert e.m == Message((i, e.m.dst.1), e.m.config);
      AcceptImprovesPorts(topo, net.sent, i, net.switches[i], e.m.dst.1, e.m.config, k);
    }
  }

  lemma ImprovedTransitive(topo: Topology, a: Net, b: Net, c: Net, i: nat, k: nat)
    requires PortImproved(topo, a, b, i, k) && PortImproved(topo, b, c, i, k)
    ensures PortImproved(topo, a, c, i, k)
  {
  }

  /** In no run is a port ever promoted: once it holds a neighbour's config it is never designated
      again, and what it holds never gets worse. */
  lemma {:induction false} NeverPromoted(topo: Topology, states: seq<Net>, events: seq<Event>, a: nat, b: nat, i: nat,
                                         k: nat)
    requires topo.Valid() && Run(topo, states, events) && a <= b < |states| && i < |topo.ids| && k < topo.nports[i]
    ensures PortImproved(topo, states[a], states[b], i, k)
    decreases b - a
  {
    RunHolds(topo, states, events, a, a);
    if a < b {
      NeverPromoted(topo, states, events, a + 1, b, i, k);
      assert StepOk(topo, states, events, a);
      EventImprovesPort(topo, states[a], events[a], i, k);
      ImprovedTransitive(topo, states[a], states[a + 1], states[b], i, k);
    } else {
      assert SwitchOk(topo, states[a], i);
    }
  }
}
