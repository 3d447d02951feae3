/** The hello timer, told from its fields and the clock alone (04_stp/stp_timer.c, stp.c). */
module StpHello {
  import opened StpVector
  import opened StpSwitch
  import opened StpNetwork
  import opened StpWires

  /** The hello of the switch is due. One tick is 1/256 second, the hello time 2 seconds. */
  predicate Due(s: Switch, now: int) { s.timer.active && now - s.timer.time >= 512 }

  /** What leaves on a hello: the current config of each designated port, on its link. */
  ghost predicate SaidOn(topo: Topology, net: Net, i: nat, k: nat, m: Message)
    requires i < |net.switches|
  {
    && k < |net.switches[i].ports| && (i, k) in topo.peer
    && IsDesignated(net.switches[i].id, net.switches[i].ports[k])
    && m == Message(topo.peer[(i, k)], ConfigOf(net.switches[i], k))
  }

  ghost predicate Says(topo: Topology, net: Net, i: nat, m: Message)
    requires i < |net.switches|
  {
    && (IsRoot(net.switches[i]) || net.switches[i].rootPort.Some?)
    && exists k :: SaidOn(topo, net, i, k, m)
  }

  /** What a tick sends. */
  lemma TickEmits(topo: Topology, net: Net, i: nat, now: int, m: Message)
    requires i < |net.switches|
    ensures m in Emission(topo, net, Tick(i, now)) <==> Due(net.switches[i], now) && Says(topo, net, i, m)
  {
    var s := net.switches[i];
    var out := SendConfig(s, |s.ports|);
    if m in Emission(topo, net, Tick(i, now)) {
      var o :| o in out && (i, o.port) in topo.peer && m == Message(topo.peer[(i, o.port)], o.config);
      SendConfigCoversDesignated(s, |s.ports|, o);
      assert SaidOn(topo, net, i, o.port, m);
    }
    if Due(s, now) && Says(topo, net, i, m) {
      var k: nat :| SaidOn(topo, net, i, k, m);
      var o := Output(k, ConfigOf(s, k));
      SendConfigCoversDesignated(s, |s.ports|, o);
      assert Message(topo.peer[(i, o.port)], o.config) in Emit(topo, i, out);
    }
  }

  /** A tick 512 ticks or more after an active timer was started sends the hello and starts the timer again; any other
      leaves the switch as it is and sends nothing, and none touches another switch. */
  lemma TickIsExact(topo: Topology, net: Net, i: nat, now: int)
    requires i < |net.switches|
    ensures var after := Apply(topo, net, Tick(i, now));
      && |after.switches| == |net.switches|
      && (forall j :: 0 <= j < |net.switches| && j != i ==> after.switches[j] == net.switches[j])
      && after.switches[i] == (if Due(net.switches[i], now) then net.switches[i].(timer := Timer(true, now))
                               else net.switches[i])
      && forall m :: m in after.sent <==> m in net.sent || (Due(net.switches[i], now) && Says(topo, net, i, m))
  {
    forall m ensures m in Apply(topo, net, Tick(i, now)).sent
      <==> m in net.sent || (Due(net.switches[i], now) && Says(topo, net, i, m))
    {
      TickEmits(topo, net, i, now, m);
    }
  }

  /** The same on the wires: what is said goes into flight once on each link, and otherwise nothing happens. */
  lemma TickOnWires(topo: Topology, w: Wires, i: nat, now: int)
    requires i < |w.net.switches|
    ensures var after := WireApply(topo, w, Step(Tick(i, now)));
      && (!Due(w.net.switches[i], now) ==> after == w)
      && forall m :: after.bag[m] == w.bag[m] + if Due(w.net.switches[i], now) && Says(topo, w.net, i, m) then 1 else 0
  {
    var after := WireApply(topo, w, Step(Tick(i, now)));
    forall m ensures after.bag[m]
      == w.bag[m] + if Due(w.net.switches[i], now) && Says(topo, w.net, i, m) then 1 else 0
    {
      TickEmits(topo, w.net, i, now, m);
    }
    if !Due(w.net.switches[i], now) {
      TickIsExact(topo, w.net, i, now);
      forall m ensures m !in Emission(topo, w.net, Tick(i, now)) {
        TickEmits(topo, w.net, i, now, m);
      }
      assert w.net.switches[i := w.net.switches[i]] == w.net.switches;
      assert after.net.sent == w.net.sent && after.bag == w.bag;
    }
  }

  /** Switch `i` says its hello at `now`. */
  predicate Hello(net: Net, e: Event, i: nat, now: int) {
    e == Tick(i, now) && i < |net.switches| && Due(net.switches[i], now)
  }

  /** Configs never start the timer. */
  lemma DeliveryKeepsTimer(topo: Topology, net: Net, m: Message, i: nat)
    requires Enabled(topo, net, Deliver(m)) && i < |net.switches|
    ensures var after := Apply(topo, net, Deliver(m));
      && |after.switches| == |net.switches| && after.switches[i].timer.time == net.switches[i].timer.time
      && (after.switches[i].timer.active ==> net.switches[i].timer.active)
  {
  }

  /** After a hello at `now` the timer stands at that hello or a later one. */
  lemma {:induction false} TimerAfterHello(topo: Topology, states: seq<Net>, events: seq<Event>, a: nat, b: nat, i: nat,
                                           now: int)
    requires Run(topo, states, events) && a < b < |states| && Hello(states[a], events[a], i, now)
    ensures i < |states[b].switches| && states[b].switches[i].timer.time >= now
  {
    if b == a + 1 {
      assert StepOk(topo, states, events, a);
      TickIsExact(topo, states[a], i, now);
    } else {
      TimerAfterHello(topo, states, events, a, b - 1, i, now);
      assert StepOk(topo, states, events, b - 1);
      match events[b - 1]
      case Deliver(m) => DeliveryKeepsTimer(topo, states[b - 1], m, i);
      case Tick(j, t) => TickIsExact(topo, states[b - 1], j, t);
    }
  }

  /** Over all runs two hellos of one switch are at least 512 ticks apart. */
  lemma HellosApart(topo: Topology, states: seq<Net>, events: seq<Event>, a: nat, b: nat, i: nat, first: int,
                    second: int)
    requires Run(topo, states, events) && a < b < |events|
    requires Hello(states[a], events[a], i, first) && Hello(states[b], events[b], i, second)
    ensures second - first >= 512
  {
    TimerAfterHello(topo, states, events, a, b, i, first);
  }

  /** Nor does the first come sooner after the start. */
  lemma {:induction false} FirstHelloWaits(topo: Topology, states: seq<Net>, events: seq<Event>, b: nat, i: nat,
                                           start: int)
    requires Run(topo, states, events) && b < |states| && i < |states[0].switches|
    requires states[0].switches[i].timer.time == start
    ensures i < |states[b].switches| && states[b].switches[i].timer.time >= start
    ensures forall now :: b < |events| && Hello(states[b], events[b], i, now) ==> now - start >= 512
  {
    if b > 0 {
      FirstHelloWaits(topo, states, events, b - 1, i, start);
      assert StepOk(topo, states, events, b - 1);
      match events[b - 1]
      case Deliver(m) => DeliveryKeepsTimer(topo, states[b - 1], m, i);
      case Tick(j, now) => TickIsExact(topo, states[b - 1], j, now);
    }
  }
}
