/** The invariant holds in every state of every run. */
module StpInvariant {
  import opened MachineInts
  import opened StpVector
  import opened StpSwitch
  import opened StpNetwork

  lemma InitHolds(topo: Topology, net: Net)
    requires topo.Valid() && InitNet(topo, net)
    ensures Inv(topo, net)
  {
    forall i | 0 <= i < |topo.ids|
      ensures SwitchOk(topo, net, i)
    {
      var s := net.switches[i];
      assert Starts(topo, net, i);
      BestPortIsFirstMinimum(s.id, s.ports, |s.ports|);
      assert forall k :: 0 <= k < |s.ports| ==> PortOk(|topo.ids|, net.sent, i, s, k);
      assert Witness(topo, net, i, s.root, s.cost, [i]);
    }
  }

  /** Whatever a switch sends names itself, the far end's link and its current pair. */
  lemma EmittedMessage(topo: Topology, i: nat, s: Switch, out: seq<Output>, m: Message)
    requires topo.Valid() && i < |topo.ids| && s.id == topo.ids[i] && |s.ports| == topo.nports[i]
    requires forall k :: 0 <= k < |s.ports| ==> s.ports[k].portId == PortId(k)
    requires 0 <= s.cost < |topo.ids| && (s.cost == 0 ==> s.root == s.id)
    requires forall o :: o in out ==> o.port < |s.ports| && o.config == ConfigOf(s, o.port)
    requires m in Emit(topo, i, out)
    ensures OriginOk(topo, m) && topo.peer[m.dst].0 == i && m.config.root == s.root && m.config.cost == s.cost
  {
    var o :| o in out && (i, o.port) in topo.peer && m == Message(topo.peer[(i, o.port)], o.config);
    assert topo.Linked((i, o.port), m.dst) && topo.Linked(m.dst, (i, o.port));
    SmallInt(s.cost);
  }

  /** One switch moves to a state at least as good, witnessed in the new network, and sends only
      its own current config. */
  lemma StepHolds(topo: Topology, net: Net, i: nat, t: Switch, out: seq<Output>)
    requires Inv(topo, net) && i < |topo.ids|
    requires LocalOk(topo, net.sent, i, t)
    requires PairLe(t.root, t.cost, net.switches[i].root, net.switches[i].cost)
    requires Witnessed(topo, Net(net.switches[i := t], net.sent), i, t.root, t.cost)
    requires forall o :: o in out ==> o.port < |t.ports| && o.config == ConfigOf(t, o.port)
    ensures Inv(topo, Net(net.switches[i := t], net.sent + Emit(topo, i, out)))
    ensures Improves(net, Net(net.switches[i := t], net.sent + Emit(topo, i, out)))
  {
    var mid := Net(net.switches[i := t], net.sent);
    var after := Net(net.switches[i := t], net.sent + Emit(topo, i, out));
    assert Improves(net, mid) && Improves(mid, after) && Improves(net, after);
    WitnessSurvives(topo, mid, after, i, t.root, t.cost);
    WitnessBounds(topo, mid, i, t.root, t.cost);
    forall k | 0 <= k < |t.ports| ensures t.ports[k].portId == PortId(k) {
      assert PortOk(|topo.ids|, net.sent, i, t, k);
    }
    forall m | m in after.sent
      ensures OriginOk(topo, m) && MessageOk(topo, after, m)
    {
      if m in net.sent {
        assert OriginOk(topo, m) && MessageOk(topo, net, m);
        WitnessSurvives(topo, net, after, topo.peer[m.dst].0, m.config.root, m.config.cost);
      } else {
        EmittedMessage(topo, i, t, out, m);
      }
    }
    forall j | 0 <= j < |topo.ids|
      ensures SwitchOk(topo, after, j)
    {
      assert SwitchOk(topo, net, j);
      LocalSurvivesSending(topo, net.sent, after.sent, j, after.switches[j]);
      if j != i {
        WitnessSurvives(topo, net, after, j, net.switches[j].root, net.switches[j].cost);
      }
    }
  }

  lemma LocalSurvivesSending(topo: Topology, sent: set<Message>, more: set<Message>, i: nat, s: Switch)
    requires topo.Valid() && i < |topo.ids| && LocalOk(topo, sent, i, s) && sent <= more
    ensures LocalOk(topo, more, i, s)
  {
    forall k | 0 <= k < |s.ports| ensures PortOk(|topo.ids|, more, i, s, k) {
      assert PortOk(|topo.ids|, sent, i, s, k);
    }
  }

  /** After an acceptance the new pair has its own simple-path witness. */
  lemma AcceptedPairIsWitnessed(topo: Topology, net: Net, i: nat, p: nat, c: Config)
    requires Inv(topo, net) && i < |topo.ids| && p < |net.switches[i].ports|
    requires Message((i, p), c) in net.sent && ConfigPriorityCmp(net.switches[i].ports[p], c)
    ensures var t := Accept(net.switches[i], p, c);
      LocalOk(topo, net.sent, i, t) && Witnessed(topo, Net(net.switches[i := t], net.sent), i, t.root, t.cost)
  {
    var t := Accept(net.switches[i], p, c);
    assert SwitchOk(topo, net, i);
    AcceptKeepsLocal(topo, net.sent, i, net.switches[i], p, c);
    var rp := t.rootPort.value;
    var m := Message((i, rp), PortVector(t.ports[rp]));
    assert OriginOk(topo, m) && MessageOk(topo, net, m);
    var src := topo.peer[(i, rp)];
    var after := Net(net.switches[i := t], net.sent);
    assert Improves(net, after);
    WitnessSurvives(topo, net, after, src.0, m.config.root, m.config.cost);
    WitnessExtends(topo, after, i, src.0, m.config.root, m.config.cost);
    WitnessBounds(topo, after, i, t.root, t.cost);
  }

  lemma OutputsAreOwnConfig(s: Switch, p: nat)
    requires p < |s.ports|
    ensures forall o :: o in PortSendConfig(s, p) ==> o.port < |s.ports| && o.config == ConfigOf(s, o.port)
    ensures forall o :: o in SendConfig(s, |s.ports|) ==> o.port < |s.ports| && o.config == ConfigOf(s, o.port)
  {
    forall o | o in SendConfig(s, |s.ports|) ensures o.port < |s.ports| && o.config == ConfigOf(s, o.port) {
      SendConfigCoversDesignated(s, |s.ports|, o);
    }
  }

  /** Every event keeps the invariant and makes no switch's pair worse. */
  lemma EventHolds(topo: Topology, net: Net, e: Event)
    requires Inv(topo, net) && Enabled(topo, net, e)
    ensures Inv(topo, Apply(topo, net, e)) && Improves(net, Apply(topo, net, e))
  {
    match e
    case Deliver(m) =>
      var (i, p) := m.dst;
      var s := net.switches[i];
      assert SwitchOk(topo, net, i);
      assert m == Message((i, p), m.config);
      if ConfigPriorityCmp(s.ports[p], m.config) {
        AcceptedPairIsWitnessed(topo, net, i, p, m.config);
        AcceptKeepsLocal(topo, net.sent, i, s, p, m.config);
        OutputsAreOwnConfig(Accept(s, p, m.config), p);
      } else {
        assert net.switches == net.switches[i := s];
        OutputsAreOwnConfig(s, p);
      }
      var (t, out) := HandleConfig(s, p, m.config);
      StepHolds(topo, net, i, t, out);
    case Tick(i, now) =>
      var s := net.switches[i];
      assert SwitchOk(topo, net, i);
      var (t, out) := TimerRunOnce(s, now);
      OutputsAreOwnConfig(s, 0);
      WitnessSurvives(topo, net, Net(net.switches[i := t], net.sent), i, s.root, s.cost);
      forall k | 0 <= k < |t.ports| ensures PortOk(|topo.ids|, net.sent, i, t, k) {
        assert PortOk(|topo.ids|, net.sent, i, s, k);
      }
      assert forall o :: o in out ==> o.config == ConfigOf(t, o.port);
      StepHolds(topo, net, i, t, out);
  }

  /** The invariant holds throughout a run, and later states are at least as good as earlier ones. */
  lemma {:induction false} RunHolds(topo: Topology, states: seq<Net>, events: seq<Event>, a: nat, b: nat)
    requires topo.Valid() && Run(topo, states, events) && a <= b < |states|
    ensures Inv(topo, states[b]) && Improves(states[a], states[b])
    decreases b
  {
    if b == 0 {
      InitHolds(topo, states[0]);
    } else {
      RunHolds(topo, states, events, if a < b then a else b - 1, b - 1);
      assert StepOk(topo, states, events, b - 1);
      EventHolds(topo, states[b - 1], events[b - 1]);
    }
  }
}
