/** Stable states are final, and every run can be continued to one. */
module StpConvergence {
  import opened MachineInts
  import opened StpVector
  import opened StpSwitch
  import opened StpNetwork
  import opened StpInvariant
  import opened StpTheorems
  import opened StpProgress

  // ---- Stable states are final ----

  /** In a stable state no config that was ever sent would be accepted where it is going. */
  lemma OldConfigsAreRefused(topo: Topology, net: Net, m: Message)
    requires Inv(topo, net) && Stable(topo, net) && m in net.sent
    ensures !Accepts(net, Deliver(m))
  {
    assert OriginOk(topo, m) && MessageOk(topo, net, m);
    var src := topo.peer[m.dst];
    assert topo.Linked(src, m.dst);
    WitnessBounds(topo, net, src.0, m.config.root, m.config.cost);
    var s := net.switches[src.0];
    assert SwitchOk(topo, net, src.0);
    assert PortOk(|topo.ids|, net.sent, src.0, s, src.1);
    WitnessBounds(topo, net, src.0, s.root, s.cost);
    SmallInt(s.cost);
    assert !ConfigPriorityCmp(net.switches[m.dst.0].ports[m.dst.1], ConfigOf(s, src.1));
  }

  /** Only timers differ. */
  predicate SameButTimers(a: Net, b: Net) {
    && |a.switches| == |b.switches|
    && forall i :: 0 <= i < |a.switches| ==> b.switches[i] == a.switches[i].(timer := b.switches[i].timer)
  }

  lemma RefusalChangesTimersOnly(topo: Topology, net: Net, e: Event)
    requires Enabled(topo, net, e) && !Accepts(net, e)
    ensures SameButTimers(net, Apply(topo, net, e)) && net.sent <= Apply(topo, net, e).sent
  {
  }

  lemma TimersDoNotMatter(topo: Topology, a: Net, b: Net)
    requires SameButTimers(a, b) && Stable(topo, a)
    ensures Stable(topo, b)
  {
    forall e | e in topo.peer
      ensures e.0 < |b.switches| && e.1 < |b.switches[e.0].ports|
        && topo.peer[e].0 < |b.switches| && topo.peer[e].1 < |b.switches[topo.peer[e].0].ports|
        && !ConfigPriorityCmp(b.switches[topo.peer[e].0].ports[topo.peer[e].1], ConfigOf(b.switches[e.0], e.1))
    {
      var f := topo.peer[e];
      assert ConfigOf(b.switches[e.0], e.1) == ConfigOf(a.switches[e.0], e.1);
      assert b.switches[f.0].ports == a.switches[f.0].ports;
    }
  }

  lemma StableRefuses(topo: Topology, net: Net, e: Event)
    requires Inv(topo, net) && Stable(topo, net) && Enabled(topo, net, e)
    ensures !Accepts(net, e)
  {
    if e.Deliver? {
      OldConfigsAreRefused(topo, net, e.m);
    }
  }

  lemma StableStays(topo: Topology, net: Net, e: Event)
    requires topo.Valid() && Stable(topo, net) && Enabled(topo, net, e) && !Accepts(net, e)
    ensures Stable(topo, Apply(topo, net, e)) && SameButTimers(net, Apply(topo, net, e))
  {
    RefusalChangesTimersOnly(topo, net, e);
    TimersDoNotMatter(topo, net, Apply(topo, net, e));
  }

  lemma StillSame(a: Net, b: Net, c: Net)
    requires SameButTimers(a, b) && SameButTimers(b, c)
    ensures SameButTimers(a, c)
  {
  }

  /** Once stable, a network stays as it is: whatever is delivered, lost, repeated or reordered, no config is
      accepted again and nothing but timers changes. */
  lemma {:induction false} StableIsFinal(topo: Topology, states: seq<Net>, events: seq<Event>, a: nat, b: nat)
    requires topo.Valid() && Run(topo, states, events) && a <= b < |states| && Stable(topo, states[a])
    ensures Stable(topo, states[b]) && SameButTimers(states[a], states[b])
    ensures b < |events| ==> !Accepts(states[b], events[b])
  {
    if a < b {
      StableIsFinal(topo, states, events, a, b - 1);
      assert StepOk(topo, states, events, b - 1);
      StableStays(topo, states[b - 1], events[b - 1]);
      StillSame(states[a], states[b - 1], states[b]);
    }
    if b < |events| {
      RunHolds(topo, states, events, b, b);
      assert StepOk(topo, states, events, b);
      StableRefuses(topo, states[b], events[b]);
    }
  }

  // ---- A medium that repeats can always lead to a stable state ----

  /** A switch that is not root has sent its current config on each of its designated ports. */
  ghost predicate Offered(topo: Topology, net: Net, i: nat, k: nat) {
    i < |net.switches| && k < |net.switches[i].ports| && (i, k) in topo.peer
    && !IsRoot(net.switches[i]) && IsDesignated(net.switches[i].id, net.switches[i].ports[k]) ==>
      Message(topo.peer[(i, k)], ConfigOf(net.switches[i], k)) in net.sent
  }

  lemma AcceptOffers(topo: Topology, net: Net, m: Message, k: nat)
    requires Inv(topo, net) && Enabled(topo, net, Deliver(m)) && Accepts(net, Deliver(m))
    ensures Offered(topo, Apply(topo, net, Deliver(m)), m.dst.0, k)
  {
    var (i, p) := m.dst;
    var s := net.switches[i];
    assert SwitchOk(topo, net, i) && m == Message((i, p), m.config);
    AcceptKeepsLocal(topo, net.sent, i, s, p, m.config);
    var t := Accept(s, p, m.config);
    if k < |t.ports| && (i, k) in topo.peer && IsDesignated(t.id, t.ports[k]) {
      var o := Output(k, ConfigOf(t, k));
      SendConfigCoversDesignated(t, |t.ports|, o);
      assert Message(topo.peer[(i, o.port)], o.config) in Emit(topo, i, SendConfig(t, |t.ports|));
    }
  }

  lemma EventKeepsOffers(topo: Topology, net: Net, e: Event, i: nat, k: nat)
    requires Inv(topo, net) && Enabled(topo, net, e) && Offered(topo, net, i, k)
    ensures Offered(topo, Apply(topo, net, e), i, k)
  {
    if Accepts(net, e) && e.m.dst.0 == i {
      AcceptOffers(topo, net, e.m, k);
    } else {
      if !Accepts(net, e) {
        RefusalChangesTimersOnly(topo, net, e);
      }
      var after := Apply(topo, net, e);
      if i < |net.switches| && k < |net.switches[i].ports| {
        assert ConfigOf(after.switches[i], k) == ConfigOf(net.switches[i], k);
      }
    }
  }

  lemma {:induction false} OffersHold(topo: Topology, states: seq<Net>, events: seq<Event>, t: nat, i: nat, k: nat)
    requires topo.Valid() && Run(topo, states, events) && t < |states|
    ensures Offered(topo, states[t], i, k)
  {
    if t == 0 {
      assert i < |topo.ids| ==> Starts(topo, states[0], i);
    } else {
      OffersHold(topo, states, events, t - 1, i, k);
      RunHolds(topo, states, events, t - 1, t - 1);
      assert StepOk(topo, states, events, t - 1);
      EventKeepsOffers(topo, states[t - 1], events[t - 1], i, k);
    }
  }

  /** The current config of a switch can be put on any of its links: a root's timer sends it, another switch
      has sent it where it is designated, and elsewhere answers a repetition of what its port holds with it. */
  lemma CanOffer(topo: Topology, net: Net, i: nat, k: nat) returns (e: Event)
    requires Inv(topo, net) && Offered(topo, net, i, k)
    requires (i, k) in topo.peer && i < |topo.ids| && k < |net.switches[i].ports|
    requires Message(topo.peer[(i, k)], ConfigOf(net.switches[i], k)) !in net.sent
    ensures Enabled(topo, net, e) && !Accepts(net, e)
    ensures Message(topo.peer[(i, k)], ConfigOf(net.switches[i], k)) in Apply(topo, net, e).sent
  {
    var s := net.switches[i];
    assert SwitchOk(topo, net, i);
    assert PortOk(|topo.ids|, net.sent, i, s, k);
    RootHasNoRootPort(topo, net, i);
    var o := Output(k, ConfigOf(s, k));
    if IsDesignated(s.id, s.ports[k]) {
      var now := s.timer.time + STP_HELLO_TIME;
      e := Tick(i, now);
      SendConfigCoversDesignated(s, |s.ports|, o);
      assert Message(topo.peer[(i, o.port)], o.config) in Emit(topo, i, TimerRunOnce(s, now).1);
    } else {
      var m := Message((i, k), PortVector(s.ports[k]));
      e := Deliver(m);
      SmallInt(s.ports[k].cost);
      assert !ConfigPriorityCmp(s.ports[k], m.config);
      assert o in PortSendConfig(s, k);
      assert Message(topo.peer[(i, o.port)], o.config) in Emit(topo, i, PortSendConfig(s, k));
    }
  }

  ghost predicate Extends(states: seq<Net>, events: seq<Event>, states': seq<Net>, events': seq<Event>) {
    |states| <= |states'| && |events| <= |events'| && states'[..|states|] == states && events'[..|events|] == events
  }

  lemma RunExtends(topo: Topology, states: seq<Net>, events: seq<Event>, e: Event)
    requires Run(topo, states, events) && Enabled(topo, states[|events|], e)
    ensures Run(topo, states + [Apply(topo, states[|events|], e)], events + [e])
    ensures Extends(states, events, states + [Apply(topo, states[|events|], e)], events + [e])
  {
    var states', events' := states + [Apply(topo, states[|events|], e)], events + [e];
    forall k | 0 <= k < |events'| ensures StepOk(topo, states', events', k) {
      if k < |events| {
        assert StepOk(topo, states, events, k);
      }
    }
  }

  lemma ExtendsTransitive(a: seq<Net>, a': seq<Event>, b: seq<Net>, b': seq<Event>, c: seq<Net>, c': seq<Event>)
    requires Extends(a, a', b, b') && Extends(b, b', c, c')
    ensures Extends(a, a', c, c')
  {
    assert c[..|a|] == c[..|b|][..|a|] && c'[..|a'|] == c'[..|b'|][..|a'|];
  }

  /** An unstable run continues with the delivery of a config that is accepted. */
  lemma OneMoreAcceptance(topo: Topology, states: seq<Net>, events: seq<Event>)
      returns (states': seq<Net>, events': seq<Event>)
    requires topo.Valid() && Run(topo, states, events) && !Stable(topo, states[|events|])
    ensures Run(topo, states', events') && Extends(states, events, states', events')
    ensures NetMeasure(topo.ids, states'[|events'|].switches) < NetMeasure(topo.ids, states[|events|].switches)
  {
    var net := states[|events|];
    RunHolds(topo, states, events, |events|, |events|);
    var link := UnstableLink(topo, net);
    var (i, k) := link;
    var f := topo.peer[(i, k)];
    var m := Message(f, ConfigOf(net.switches[i], k));
    states', events' := states, events;
    if m !in net.sent {
      OffersHold(topo, states, events, |events|, i, k);
      var e := CanOffer(topo, net, i, k);
      RunExtends(topo, states, events, e);
      RefusalChangesTimersOnly(topo, net, e);
      EventLowersMeasure(topo, net, e);
      states', events' := states + [Apply(topo, net, e)], events + [e];
    }
    var mid := states'[|events'|];
    RunHolds(topo, states', events', |events'|, |events'|);
    assert mid.switches[f.0].ports == net.switches[f.0].ports;
    assert Accepts(mid, Deliver(m));
    EventLowersMeasure(topo, mid, Deliver(m));
    RunExtends(topo, states', events', Deliver(m));
    ExtendsTransitive(states, events, states', events', states' + [Apply(topo, mid, Deliver(m))],
      events' + [Deliver(m)]);
    states', events' := states' + [Apply(topo, mid, Deliver(m))], events' + [Deliver(m)];
  }

  /** A link over which the current config would be accepted. */
  lemma UnstableLink(topo: Topology, net: Net) returns (e: End)
    requires Inv(topo, net) && !Stable(topo, net)
    ensures e in topo.peer && e.0 < |topo.ids| && e.1 < |net.switches[e.0].ports|
    ensures topo.peer[e].0 < |topo.ids| && topo.peer[e].1 < |net.switches[topo.peer[e].0].ports|
    ensures ConfigPriorityCmp(net.switches[topo.peer[e].0].ports[topo.peer[e].1], ConfigOf(net.switches[e.0], e.1))
  {
    e :| e in topo.peer && !(
      && e.0 < |net.switches| && e.1 < |net.switches[e.0].ports|
      && topo.peer[e].0 < |net.switches| && topo.peer[e].1 < |net.switches[topo.peer[e].0].ports|
      && !ConfigPriorityCmp(net.switches[topo.peer[e].0].ports[topo.peer[e].1], ConfigOf(net.switches[e.0], e.1)));
    assert topo.Linked(e, topo.peer[e]);
    assert SwitchOk(topo, net, e.0) && SwitchOk(topo, net, topo.peer[e].0);
  }

  /** Where the medium can repeat what it has delivered, every run can be continued to a stable state. */
  lemma {:induction false} CanAlwaysStabilize(topo: Topology, states: seq<Net>, events: seq<Event>)
      returns (states': seq<Net>, events': seq<Event>)
    requires topo.Valid() && Run(topo, states, events)
    ensures Run(topo, states', events') && Extends(states, events, states', events') && Stable(topo, states'[|events'|])
    decreases
      if NetMeasure(topo.ids, states[|events|].switches) > 0 then NetMeasure(topo.ids, states[|events|].switches) else 0
  {
    states', events' := states, events;
    if !Stable(topo, states[|events|]) {
      var more, moreEvents := OneMoreAcceptance(topo, states, events);
      RunHolds(topo, more, moreEvents, |moreEvents|, |moreEvents|);
      StateMeasureBound(topo, more[|moreEvents|]);
      states', events' := CanAlwaysStabilize(topo, more, moreEvents);
      ExtendsTransitive(states, events, more, moreEvents, states', events');
    }
  }
}
