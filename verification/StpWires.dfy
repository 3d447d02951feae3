/** The same switches on wires that keep nothing: a delivered config is gone. Configs may still be reordered,
    and lost or repeated while they are in flight. */
module StpWires {
  import opened MachineInts
  import opened StpVector
  import opened StpSwitch
  import opened StpNetwork
  import opened StpInvariant
  import opened StpTheorems
  import opened StpProgress
  import opened StpConvergence

  /** `net.sent` is now only the record of what has ever been sent; `bag` is what is in flight. */
  datatype Wires = Wires(net: Net, bag: multiset<Message>)

  datatype WireEvent = Step(e: Event) | Lose(m: Message) | Repeat(m: Message)

  predicate WireEnabled(topo: Topology, w: Wires, e: WireEvent) {
    match e
    case Step(x) => Enabled(topo, w.net, x) && (x.Deliver? ==> x.m in w.bag)
    case Lose(m) => m in w.bag
    case Repeat(m) => m in w.bag
  }

  /** What the event puts on the wires: at most one config for each port. */
  function Emission(topo: Topology, net: Net, e: Event): set<Message>
    requires Enabled(topo, net, e)
  {
    match e
    case Deliver(m) => Emit(topo, m.dst.0, HandleConfig(net.switches[m.dst.0], m.dst.1, m.config).1)
    case Tick(i, now) => Emit(topo, i, TimerRunOnce(net.switches[i], now).1)
  }

  function WireApply(topo: Topology, w: Wires, e: WireEvent): Wires
    requires WireEnabled(topo, w, e)
  {
    match e
    case Step(x) =>
      var left := if x.Deliver? then w.bag - multiset{x.m} else w.bag;
      Wires(Apply(topo, w.net, x), left + multiset(Emission(topo, w.net, x)))
    case Lose(m) => w.(bag := w.bag - multiset{m})
    case Repeat(m) => w.(bag := w.bag + multiset{m})
  }

  predicate WireStepOk(topo: Topology, states: seq<Wires>, events: seq<WireEvent>, k: nat)
    requires |states| == |events| + 1 && k < |events|
  {
    WireEnabled(topo, states[k], events[k]) && states[k + 1] == WireApply(topo, states[k], events[k])
  }

  /** Any number of steps from any state. */
  ghost predicate Chain(topo: Topology, states: seq<Wires>, events: seq<WireEvent>) {
    && |states| == |events| + 1
    && forall k {:trigger WireStepOk(topo, states, events, k)} :: 0 <= k < |events| ==>
         WireStepOk(topo, states, events, k)
  }

  ghost predicate WireRun(topo: Topology, states: seq<Wires>, events: seq<WireEvent>) {
    Chain(topo, states, events) && InitNet(topo, states[0].net) && states[0].bag == multiset{}
  }

  predicate Lossless(events: seq<WireEvent>) {
    forall k :: 0 <= k < |events| ==> !events[k].Lose?
  }

  // ---- What carries over ----

  ghost predicate WireInv(topo: Topology, w: Wires) {
    Inv(topo, w.net) && forall m :: m in w.bag ==> m in w.net.sent
  }

  lemma ChainHolds(topo: Topology, states: seq<Wires>, events: seq<WireEvent>, t: nat)
    requires Chain(topo, states, events) && t < |states| && WireInv(topo, states[0])
    ensures WireInv(topo, states[t])
  {
    if t > 0 {
      ChainHolds(topo, states, events, t - 1);
      assert WireStepOk(topo, states, events, t - 1);
      if events[t - 1].Step? {
        EventHolds(topo, states[t - 1].net, events[t - 1].e);
      }
    }
  }

  /** Every state on wires is a state of the network in which nothing sent is ever forgotten, so whatever is
      proved of all those states holds here. */
  lemma {:induction false} WiresEmbed(topo: Topology, states: seq<Wires>, events: seq<WireEvent>, t: nat)
      returns (ns: seq<Net>, nes: seq<Event>)
    requires topo.Valid() && WireRun(topo, states, events) && t < |states|
    ensures Run(topo, ns, nes) && ns[|nes|] == states[t].net
  {
    if t == 0 {
      ns, nes := [states[0].net], [];
    } else {
      ns, nes := WiresEmbed(topo, states, events, t - 1);
      InitHolds(topo, states[0].net);
      ChainHolds(topo, states, events, t - 1);
      assert WireStepOk(topo, states, events, t - 1);
      if events[t - 1].Step? {
        RunExtends(topo, ns, nes, events[t - 1].e);
        ns, nes := ns + [states[t].net], nes + [events[t - 1].e];
      }
    }
  }

  // ---- Nothing sent is forgotten by its receiver ----

  /** The config would not be accepted where it is going. */
  predicate Refused(net: Net, m: Message) { !Accepts(net, Deliver(m)) }

  /** The config is in flight, or would be refused where it was going. */
  ghost predicate Heeded(w: Wires, m: Message) {
    m in w.bag || Refused(w.net, m)
  }

  /** A vector that is no worse refuses whatever the old one refused. */
  lemma RefusalLasts(p: Port, q: Port, c: Config)
    requires 0 <= p.cost < TWO31 && 0 <= q.cost < TWO31 && 0 <= c.cost < TWO31
    requires SameVector(p, q) || PortPriorityCmp(p, q)
    requires !ConfigPriorityCmp(p, c)
    ensures !ConfigPriorityCmp(q, c)
  {
  }

  lemma HeldCost(topo: Topology, net: Net, i: nat, k: nat)
    requires Inv(topo, net) && i < |topo.ids| && k < |net.switches[i].ports|
    ensures 0 <= net.switches[i].ports[k].cost < TWO31 && |net.switches[i].ports| == topo.nports[i]
  {
    assert SwitchOk(topo, net, i);
    assert PortOk(|topo.ids|, net.sent, i, net.switches[i], k);
  }

  lemma RefusedStaysRefused(topo: Topology, net: Net, e: Event, m: Message)
    requires Inv(topo, net) && Enabled(topo, net, e) && m in net.sent && Refused(net, m)
    ensures Refused(Apply(topo, net, e), m)
  {
    EventHolds(topo, net, e);
    assert OriginOk(topo, m);
    var (i, k) := m.dst;
    assert SwitchOk(topo, net, i);
    HeldCost(topo, net, i, k);
    EventImprovesPort(topo, net, e, i, k);
    HeldCost(topo, Apply(topo, net, e), i, k);
    RefusalLasts(net.switches[i].ports[k], Apply(topo, net, e).switches[i].ports[k], m.config);
  }

  /** A config that has just been delivered would be refused the second time. */
  lemma DeliveredIsRefused(topo: Topology, net: Net, m: Message)
    requires Inv(topo, net) && Enabled(topo, net, Deliver(m))
    ensures Refused(Apply(topo, net, Deliver(m)), m)
  {
    if !Refused(net, m) {
      var (i, p) := m.dst;
      var s := net.switches[i];
      assert SwitchOk(topo, net, i) && m == Message((i, p), m.config) && OriginOk(topo, m);
      AcceptKeepsLocal(topo, net.sent, i, s, p, m.config);
      ReplacedPorts(topo, net.sent, i, s, p, m.config);
      var t := Accept(s, p, m.config);
      assert RefreshedTo(t, Replaced(s, p, m.config).ports[p], t.ports[p]);
      SmallInt(m.config.cost);
    }
  }

  lemma HeededKept(topo: Topology, w: Wires, e: WireEvent, m: Message)
    requires WireInv(topo, w) && WireEnabled(topo, w, e) && !e.Lose?
    requires m in w.net.sent && Heeded(w, m)
    ensures Heeded(WireApply(topo, w, e), m)
  {
    if e.Step? {
      if Refused(w.net, m) {
        RefusedStaysRefused(topo, w.net, e.e, m);
      } else if e.e == Deliver(m) {
        DeliveredIsRefused(topo, w.net, m);
      }
    }
  }

  /** Without loss every config ever sent is in flight or would be refused. */
  lemma {:induction false} AllHeeded(topo: Topology, states: seq<Wires>, events: seq<WireEvent>, t: nat, m: Message)
    requires topo.Valid() && WireRun(topo, states, events) && Lossless(events) && t < |states|
    requires m in states[t].net.sent
    ensures Heeded(states[t], m)
  {
    if t > 0 {
      var w, e := states[t - 1], events[t - 1];
      assert WireStepOk(topo, states, events, t - 1);
      InitHolds(topo, states[0].net);
      ChainHolds(topo, states, events, t - 1);
      if m in w.net.sent {
        AllHeeded(topo, states, events, t - 1, m);
        HeededKept(topo, w, e, m);
      } else {
        assert m in Emission(topo, w.net, e.e);
      }
    }
  }

  // ---- Settled states ----

  /** Nothing in flight would be accepted; in particular when nothing is in flight. */
  ghost predicate Settled(w: Wires) {
    forall m {:trigger Refused(w.net, m)} :: m in w.bag ==> Refused(w.net, m)
  }

  /** Every root has sent its config on each of its links. */
  ghost predicate RootsHaveSpoken(topo: Topology, net: Net) {
    forall e :: e in topo.peer && e.0 < |net.switches| && e.1 < |net.switches[e.0].ports| && IsRoot(net.switches[e.0])
      ==> Message(topo.peer[e], ConfigOf(net.switches[e.0], e.1)) in net.sent
  }

  /** A state that a run without loss has reached, in which nothing in flight matters any more. */
  ghost predicate Rest(topo: Topology, w: Wires) {
    && WireInv(topo, w) && Settled(w) && RootsHaveSpoken(topo, w.net)
    && (forall m {:trigger Refused(w.net, m)} :: m in w.net.sent ==> Refused(w.net, m))
    && (forall i, k {:trigger Offered(topo, w.net, i, k)} :: Offered(topo, w.net, i, k))
  }

  lemma SettledIsRest(topo: Topology, states: seq<Wires>, events: seq<WireEvent>, t: nat)
    requires topo.Valid() && WireRun(topo, states, events) && Lossless(events) && t < |states|
    requires Settled(states[t]) && RootsHaveSpoken(topo, states[t].net)
    ensures Rest(topo, states[t])
  {
    var w := states[t];
    InitHolds(topo, states[0].net);
    ChainHolds(topo, states, events, t);
    forall m | m in w.net.sent ensures Refused(w.net, m) {
      AllHeeded(topo, states, events, t, m);
    }
    var ns, nes := WiresEmbed(topo, states, events, t);
    forall i: nat, k: nat ensures Offered(topo, w.net, i, k) {
      OffersHold(topo, ns, nes, |nes|, i, k);
    }
  }

  /** The current config of the switch at one end of a link would be accepted at the other end. */
  ghost predicate Beaten(topo: Topology, net: Net, e: End) {
    && e in topo.peer && e.0 < |net.switches| && e.1 < |net.switches[e.0].ports|
    && !Refused(net, Message(topo.peer[e], ConfigOf(net.switches[e.0], e.1)))
  }

  lemma StableIsUnbeaten(topo: Topology, net: Net)
    requires Inv(topo, net)
    ensures Stable(topo, net) <==> forall e :: !Beaten(topo, net, e)
  {
    forall e | e in topo.peer
      ensures e.0 < |net.switches| && e.1 < |net.switches[e.0].ports|
      ensures topo.peer[e].0 < |net.switches| && topo.peer[e].1 < |net.switches[topo.peer[e].0].ports|
    {
      assert topo.Linked(e, topo.peer[e]);
      assert SwitchOk(topo, net, e.0) && SwitchOk(topo, net, topo.peer[e].0);
    }
    if Stable(topo, net) {
      forall e ensures !Beaten(topo, net, e) {
      }
    } else {
      var e := UnstableLink(topo, net);
      assert Beaten(topo, net, e);
    }
  }

  predicate DesignatedEnd(net: Net, e: End) {
    e.0 < |net.switches| && e.1 < |net.switches[e.0].ports|
    && IsDesignated(net.switches[e.0].id, net.switches[e.0].ports[e.1])
  }

  /** At rest the far end of a designated port has heard its switch's current config. */
  lemma DesignatedIsHeard(topo: Topology, w: Wires, e: End)
    requires Rest(topo, w) && DesignatedEnd(w.net, e)
    ensures !Beaten(topo, w.net, e)
  {
    assert Offered(topo, w.net, e.0, e.1);
  }

  /** The test the code leaves out: no port that is not designated holds a vector that the switch's own config
      would beat. */
  ghost predicate DesignatedTest(topo: Topology, net: Net) {
    forall e {:trigger DesignatedEnd(net, e)} ::
      e in topo.peer && e.0 < |net.switches| && e.1 < |net.switches[e.0].ports| && !DesignatedEnd(net, e) ==>
        !ConfigPriorityCmp(net.switches[e.0].ports[e.1], ConfigOf(net.switches[e.0], e.1))
  }

  /** The pair a port that is not designated holds is one its neighbour has said, and no better than what the
      neighbour believes now. */
  lemma HeldIsNeighbours(topo: Topology, net: Net, e: End)
    requires Inv(topo, net) && e in topo.peer && e.0 < |net.switches| && e.1 < |net.switches[e.0].ports|
    requires !DesignatedEnd(net, e)
    ensures topo.peer[e].0 < |net.switches| && topo.peer[e].1 < |net.switches[topo.peer[e].0].ports|
    ensures var p, f := net.switches[e.0].ports[e.1], topo.peer[e];
      && p.switchId == net.switches[f.0].id && p.port == PortId(f.1) && 0 <= p.cost < TWO31
      && PairLe(net.switches[f.0].root, net.switches[f.0].cost, p.root, p.cost)
      && Message(e, PortVector(p)) in net.sent
  {
    var f := topo.peer[e];
    assert topo.Linked(e, f);
    assert SwitchOk(topo, net, e.0) && SwitchOk(topo, net, f.0);
    assert PortOk(|topo.ids|, net.sent, e.0, net.switches[e.0], e.1);
    var m := Message(e, PortVector(net.switches[e.0].ports[e.1]));
    assert m == Message((e.0, e.1), PortVector(net.switches[e.0].ports[e.1]));
    assert OriginOk(topo, m) && MessageOk(topo, net, m);
    WitnessBounds(topo, net, f.0, m.config.root, m.config.cost);
  }

  /** What a switch says on a port. */
  lemma OwnConfig(topo: Topology, net: Net, e: End)
    requires Inv(topo, net) && e.0 < |net.switches| && e.1 < |net.switches[e.0].ports|
    ensures var s, c := net.switches[e.0], ConfigOf(net.switches[e.0], e.1);
      && 0 <= s.cost < TWO31 && c == Config(s.root, s.cost, s.id, PortId(e.1)) && s.ports[e.1].portId == PortId(e.1)
      && 0 <= s.ports[e.1].cost < TWO31
      && (DesignatedEnd(net, e) ==> s.ports[e.1].root == s.root && s.ports[e.1].cost == s.cost)
  {
    var s := net.switches[e.0];
    assert SwitchOk(topo, net, e.0);
    assert PortOk(|topo.ids|, net.sent, e.0, s, e.1);
    WitnessBounds(topo, net, e.0, s.root, s.cost);
    SmallInt(s.cost);
  }

  /** At rest, passing the test on both ends of a link makes it stable from this end. */
  lemma TestMakesStable(topo: Topology, w: Wires, e: End)
    requires Rest(topo, w) && DesignatedTest(topo, w.net)
    ensures !Beaten(topo, w.net, e)
  {
    var net := w.net;
    if DesignatedEnd(net, e) {
      DesignatedIsHeard(topo, w, e);
    } else if Beaten(topo, net, e) {
      var f := topo.peer[e];
      assert topo.Linked(e, f);
      HeldIsNeighbours(topo, net, e);
      OwnConfig(topo, net, e);
      OwnConfig(topo, net, f);
      if !DesignatedEnd(net, f) {
        HeldIsNeighbours(topo, net, f);
      }
    }
  }

  /** A link with a designated end fails the test at its other end exactly when it is not stable from there. */
  lemma StableMeansTest(topo: Topology, w: Wires, e: End)
    requires Rest(topo, w) && e in topo.peer && e.0 < |w.net.switches| && e.1 < |w.net.switches[e.0].ports|
    requires !DesignatedEnd(w.net, e) && DesignatedEnd(w.net, topo.peer[e]) && !Beaten(topo, w.net, e)
    ensures !ConfigPriorityCmp(w.net.switches[e.0].ports[e.1], ConfigOf(w.net.switches[e.0], e.1))
  {
    var net, f := w.net, topo.peer[e];
    assert topo.Linked(e, f);
    HeldIsNeighbours(topo, net, e);
    OwnConfig(topo, net, e);
    OwnConfig(topo, net, f);
    DesignatedIsHeard(topo, w, f);
  }

  ghost predicate EveryLinkDesignated(topo: Topology, net: Net) {
    forall e :: e in topo.peer ==> DesignatedEnd(net, e) || DesignatedEnd(net, topo.peer[e])
  }

  /** Where both ends of a link defer to each other, one of them would fail the test. */
  lemma TestDesignates(topo: Topology, net: Net, e: End)
    requires Inv(topo, net) && DesignatedTest(topo, net) && e in topo.peer
    ensures DesignatedEnd(net, e) || DesignatedEnd(net, topo.peer[e])
  {
    var f := topo.peer[e];
    assert topo.Linked(e, f) && topo.Linked(f, e);
    assert SwitchOk(topo, net, e.0) && SwitchOk(topo, net, f.0);
    if !DesignatedEnd(net, e) && !DesignatedEnd(net, f) {
      HeldIsNeighbours(topo, net, e);
      HeldIsNeighbours(topo, net, f);
      OwnConfig(topo, net, e);
      OwnConfig(topo, net, f);
    }
  }

  /** When a run without loss has settled, the test the code leaves out holds exactly when the state is stable and
      every link has a designated end. */
  lemma StableIffDesignatedTest(topo: Topology, states: seq<Wires>, events: seq<WireEvent>, t: nat)
    requires topo.Valid() && WireRun(topo, states, events) && Lossless(events) && t < |states|
    requires Settled(states[t]) && RootsHaveSpoken(topo, states[t].net)
    ensures DesignatedTest(topo, states[t].net) <==>
      Stable(topo, states[t].net) && EveryLinkDesignated(topo, states[t].net)
  {
    var w := states[t];
    SettledIsRest(topo, states, events, t);
    StableIsUnbeaten(topo, w.net);
    if DesignatedTest(topo, w.net) {
      forall e ensures !Beaten(topo, w.net, e) {
        TestMakesStable(topo, w, e);
      }
      forall e | e in topo.peer ensures DesignatedEnd(w.net, e) || DesignatedEnd(w.net, topo.peer[e]) {
        TestDesignates(topo, w.net, e);
      }
    }
    if EveryLinkDesignated(topo, w.net) && Stable(topo, w.net) {
      forall e | e in topo.peer && e.0 < |w.net.switches| && e.1 < |w.net.switches[e.0].ports|
        && !DesignatedEnd(w.net, e)
        ensures !ConfigPriorityCmp(w.net.switches[e.0].ports[e.1], ConfigOf(w.net.switches[e.0], e.1))
      {
        StableMeansTest(topo, w, e);
      }
    }
  }

  // ---- When nothing can change any more ----

  /** Something may still be said on the link: something is in flight on it, or one of its ends is a root, whose
      timer runs. */
  ghost predicate Live(topo: Topology, w: Wires, e: End) {
    && e in topo.peer && e.0 < |w.net.switches| && topo.peer[e].0 < |w.net.switches|
    && (IsRoot(w.net.switches[e.0]) || IsRoot(w.net.switches[topo.peer[e].0])
        || exists m :: m in w.bag && (m.dst == e || m.dst == topo.peer[e]))
  }

  /** Some continuation accepts a config. */
  ghost predicate CanChange(topo: Topology, w: Wires) {
    exists states: seq<Wires>, events: seq<WireEvent> ::
      && Chain(topo, states, events) && states[0] == w && |events| > 0
      && Changes(states[|events| - 1], events[|events| - 1])
  }

  predicate Changes(w: Wires, e: WireEvent) {
    e.Step? && Accepts(w.net, e.e)
  }

  /** Every link that is live is stable from both ends. */
  ghost predicate LiveLinksStable(topo: Topology, w: Wires) {
    forall e {:trigger Live(topo, w, e)} :: Live(topo, w, e) ==>
      !Beaten(topo, w.net, e) && !Beaten(topo, w.net, topo.peer[e])
  }

  /** What continuations of `w` keep: only timers change, and what is in flight is refused and on a live link. */
  ghost predicate Idle(topo: Topology, w: Wires, x: Wires) {
    && WireInv(topo, x) && SameButTimers(w.net, x.net)
    && forall m {:trigger Refused(w.net, m)} :: m in x.bag ==>
      Refused(w.net, m) && m.dst in topo.peer && Live(topo, w, m.dst)
  }

  /** What an event that changes nothing puts on the wires: a switch's current config on one of its links. */
  lemma EmissionIsCurrent(topo: Topology, net: Net, e: Event, m: Message) returns (src: End)
    requires Inv(topo, net) && Enabled(topo, net, e) && !Accepts(net, e) && m in Emission(topo, net, e)
    ensures src in topo.peer && m.dst == topo.peer[src]
    ensures src.0 < |net.switches| && src.1 < |net.switches[src.0].ports|
    ensures m.config == ConfigOf(net.switches[src.0], src.1)
    ensures if e.Deliver? then src == e.m.dst else src.0 == e.i && IsRoot(net.switches[src.0])
  {
    match e
    case Deliver(d) =>
      var o :| o in PortSendConfig(net.switches[d.dst.0], d.dst.1) && (d.dst.0, o.port) in topo.peer
               && m == Message(topo.peer[(d.dst.0, o.port)], o.config);
      src := (d.dst.0, o.port);
    case Tick(i, now) =>
      var s := net.switches[i];
      assert SwitchOk(topo, net, i);
      var o :| o in SendConfig(s, |s.ports|) && (i, o.port) in topo.peer
        && m == Message(topo.peer[(i, o.port)], o.config);
      SendConfigCoversDesignated(s, |s.ports|, o);
      src := (i, o.port);
  }

  lemma SameBeaten(topo: Topology, a: Net, b: Net, e: End)
    requires SameButTimers(a, b)
    ensures Beaten(topo, a, e) <==> Beaten(topo, b, e)
  {
  }

  lemma SameRefused(a: Net, b: Net, m: Message)
    requires SameButTimers(a, b)
    ensures Refused(a, m) <==> Refused(b, m)
  {
  }

  /** Losing or repeating what is in flight. */
  lemma IdleBag(topo: Topology, w: Wires, x: Wires, bag: multiset<Message>)
    requires Idle(topo, w, x) && forall m :: m in bag ==> m in x.bag
    ensures Idle(topo, w, x.(bag := bag))
  {
    forall m | m in bag ensures Refused(w.net, m) && m.dst in topo.peer && Live(topo, w, m.dst) {
      assert Refused(w.net, m);
    }
  }

  lemma IdleRefuses(topo: Topology, w: Wires, x: Wires, e: Event)
    requires Idle(topo, w, x) && WireEnabled(topo, x, Step(e))
    ensures !Accepts(x.net, e)
  {
    if e.Deliver? {
      assert Refused(w.net, e.m);
      SameRefused(w.net, x.net, e.m);
    }
  }

  lemma IdleMoves(topo: Topology, w: Wires, x: Wires, e: Event)
    requires topo.Valid() && LiveLinksStable(topo, w) && Idle(topo, w, x) && WireEnabled(topo, x, Step(e))
    requires !Accepts(x.net, e)
    ensures Idle(topo, w, WireApply(topo, x, Step(e)))
  {
    var after := WireApply(topo, x, Step(e));
    EventHolds(topo, x.net, e);
    RefusalChangesTimersOnly(topo, x.net, e);
    StillSame(w.net, x.net, after.net);
    forall m | m in after.bag
      ensures Refused(w.net, m) && m.dst in topo.peer && Live(topo, w, m.dst) && m in after.net.sent
    {
      if m in Emission(topo, x.net, e) {
        EmissionIsLive(topo, w, x, e, m);
      } else {
        assert m in x.bag && Refused(w.net, m);
      }
    }
  }

  lemma IdleStep(topo: Topology, w: Wires, x: Wires, e: WireEvent)
    requires topo.Valid() && LiveLinksStable(topo, w) && Idle(topo, w, x) && WireEnabled(topo, x, e)
    ensures !Changes(x, e) && Idle(topo, w, WireApply(topo, x, e))
  {
    match e
    case Step(s) =>
      IdleRefuses(topo, w, x, s);
      IdleMoves(topo, w, x, s);
    case Lose(m) => IdleBag(topo, w, x, x.bag - multiset{m});
    case Repeat(m) => IdleBag(topo, w, x, x.bag + multiset{m});
  }

  lemma EmissionIsLive(topo: Topology, w: Wires, x: Wires, e: Event, m: Message)
    requires topo.Valid() && LiveLinksStable(topo, w) && Idle(topo, w, x) && Enabled(topo, x.net, e)
      && !Accepts(x.net, e)
    requires e.Deliver? ==> e.m in x.bag
    requires m in Emission(topo, x.net, e)
    ensures Refused(w.net, m) && m.dst in topo.peer && Live(topo, w, m.dst)
  {
    var src := EmissionIsCurrent(topo, x.net, e, m);
    assert topo.Linked(src, m.dst);
    assert SwitchOk(topo, x.net, m.dst.0);
    if e.Deliver? {
      assert Refused(w.net, e.m);
    }
    assert Live(topo, w, src) && Live(topo, w, m.dst);
    SameBeaten(topo, w.net, x.net, src);
    SameRefused(w.net, x.net, m);
  }

  lemma {:induction false} IdleForever(topo: Topology, states: seq<Wires>, events: seq<WireEvent>, t: nat)
    requires topo.Valid() && Chain(topo, states, events) && t < |states|
    requires LiveLinksStable(topo, states[0]) && Idle(topo, states[0], states[0])
    ensures Idle(topo, states[0], states[t]) && (t < |events| ==> !Changes(states[t], events[t]))
  {
    if t > 0 {
      IdleForever(topo, states, events, t - 1);
      assert WireStepOk(topo, states, events, t - 1);
      IdleStep(topo, states[0], states[t - 1], events[t - 1]);
    }
    if t < |events| {
      assert WireStepOk(topo, states, events, t);
      IdleStep(topo, states[0], states[t], events[t]);
    }
  }

  lemma ChangeNow(topo: Topology, w: Wires, e: WireEvent)
    requires WireEnabled(topo, w, e) && Changes(w, e)
    ensures CanChange(topo, w)
  {
    var states, events := [w, WireApply(topo, w, e)], [e];
    assert WireStepOk(topo, states, events, 0);
    assert Chain(topo, states, events) && states[0] == w && |events| > 0;
  }

  lemma ChainPrepends(topo: Topology, w: Wires, e: WireEvent, states: seq<Wires>, events: seq<WireEvent>)
    requires Chain(topo, states, events) && WireEnabled(topo, w, e) && states[0] == WireApply(topo, w, e)
    ensures Chain(topo, [w] + states, [e] + events)
  {
    var states', events' := [w] + states, [e] + events;
    forall k | 0 <= k < |events'| ensures WireStepOk(topo, states', events', k) {
      if k > 0 {
        assert WireStepOk(topo, states, events, k - 1);
      }
    }
  }

  lemma ChangeLater(topo: Topology, w: Wires, e: WireEvent)
    requires WireEnabled(topo, w, e) && CanChange(topo, WireApply(topo, w, e))
    ensures CanChange(topo, w)
  {
    var states: seq<Wires>, events: seq<WireEvent> :|
      && Chain(topo, states, events) && states[0] == WireApply(topo, w, e) && |events| > 0
      && Changes(states[|events| - 1], events[|events| - 1]);
    var states', events' := [w] + states, [e] + events;
    ChainPrepends(topo, w, e, states, events);
    assert Chain(topo, states', events') && states'[0] == w && |events'| > 0;
    assert states'[|events'| - 1] == states[|events| - 1] && events'[|events'| - 1] == events[|events| - 1];
  }

  /** A refused config is answered on its link with the current one. */
  lemma RefusalIsAnswered(topo: Topology, net: Net, m: Message)
    requires Inv(topo, net) && Enabled(topo, net, Deliver(m)) && Refused(net, m)
    ensures m.dst in topo.peer
    ensures Message(topo.peer[m.dst], ConfigOf(net.switches[m.dst.0], m.dst.1)) in Emission(topo, net, Deliver(m))
  {
    var (i, k) := m.dst;
    assert OriginOk(topo, m);
    RootHasNoRootPort(topo, net, i);
    var o := Output(k, ConfigOf(net.switches[i], k));
    assert o in PortSendConfig(net.switches[i], k);
    assert Message(topo.peer[(i, o.port)], o.config) in Emit(topo, i, PortSendConfig(net.switches[i], k));
  }

  /** A root's timer sends its config on each of its links. */
  lemma RootSpeaks(topo: Topology, net: Net, e: End) returns (tick: Event)
    requires Inv(topo, net) && e in topo.peer && e.0 < |net.switches| && e.1 < |net.switches[e.0].ports|
    requires IsRoot(net.switches[e.0])
    ensures tick.Tick? && Enabled(topo, net, tick)
    ensures Message(topo.peer[e], ConfigOf(net.switches[e.0], e.1)) in Emission(topo, net, tick)
  {
    var (i, k) := e;
    var s := net.switches[i];
    assert SwitchOk(topo, net, i);
    RootHasNoRootPort(topo, net, i);
    BestPortIsFirstMinimum(s.id, s.ports, |s.ports|);
    tick := Tick(i, s.timer.time + STP_HELLO_TIME);
    var o := Output(k, ConfigOf(s, k));
    SendConfigCoversDesignated(s, |s.ports|, o);
    assert Message(topo.peer[(i, o.port)], o.config) in Emit(topo, i, SendConfig(s, |s.ports|));
  }

  /** Once something arrives at one end of a link, that end's config reaches the other. */
  lemma ArrivalProvokes(topo: Topology, w: Wires, e: End, m: Message)
    requires topo.Valid() && WireInv(topo, w) && Beaten(topo, w.net, e) && m in w.bag && m.dst == e
    ensures CanChange(topo, w)
  {
    if Refused(w.net, m) {
      RefusalIsAnswered(topo, w.net, m);
      RefusalChangesTimersOnly(topo, w.net, Deliver(m));
      var x := WireApply(topo, w, Step(Deliver(m)));
      var reply := Message(topo.peer[e], ConfigOf(w.net.switches[e.0], e.1));
      SameRefused(w.net, x.net, reply);
      ChangeNow(topo, x, Step(Deliver(reply)));
      ChangeLater(topo, w, Step(Deliver(m)));
    } else {
      ChangeNow(topo, w, Step(Deliver(m)));
    }
  }

  lemma LiveLinkProvokes(topo: Topology, w: Wires, e: End)
    requires topo.Valid() && WireInv(topo, w) && Live(topo, w, e) && Beaten(topo, w.net, e)
    ensures CanChange(topo, w)
  {
    var f := topo.peer[e];
    assert topo.Linked(e, f) && topo.Linked(f, e);
    assert SwitchOk(topo, w.net, e.0) && SwitchOk(topo, w.net, f.0);
    var own := Message(f, ConfigOf(w.net.switches[e.0], e.1));
    if IsRoot(w.net.switches[e.0]) {
      var tick := RootSpeaks(topo, w.net, e);
      var x := WireApply(topo, w, Step(tick));
      RefusalChangesTimersOnly(topo, w.net, tick);
      SameRefused(w.net, x.net, own);
      ChangeNow(topo, x, Step(Deliver(own)));
      ChangeLater(topo, w, Step(tick));
    } else if IsRoot(w.net.switches[f.0]) {
      var tick := RootSpeaks(topo, w.net, f);
      var x := WireApply(topo, w, Step(tick));
      EventHolds(topo, w.net, tick);
      RefusalChangesTimersOnly(topo, w.net, tick);
      SameBeaten(topo, w.net, x.net, e);
      ArrivalProvokes(topo, x, e, Message(e, ConfigOf(w.net.switches[f.0], f.1)));
      ChangeLater(topo, w, Step(tick));
    } else {
      var m :| m in w.bag && (m.dst == e || m.dst == f);
      if m.dst == e {
        ArrivalProvokes(topo, w, e, m);
      } else if Refused(w.net, m) {
        RefusalIsAnswered(topo, w.net, m);
        EventHolds(topo, w.net, Deliver(m));
        RefusalChangesTimersOnly(topo, w.net, Deliver(m));
        var x := WireApply(topo, w, Step(Deliver(m)));
        SameBeaten(topo, w.net, x.net, e);
        ArrivalProvokes(topo, x, e, Message(e, ConfigOf(w.net.switches[f.0], f.1)));
        ChangeLater(topo, w, Step(Deliver(m)));
      } else {
        ChangeNow(topo, w, Step(Deliver(m)));
      }
    }
  }

  /** A settled state can still change exactly when some live link is not stable: beaten links on which nobody
      speaks any more stay as they are for ever. */
  lemma FrozenIffLiveLinksStable(topo: Topology, w: Wires)
    requires topo.Valid() && WireInv(topo, w) && Settled(w)
    ensures CanChange(topo, w) <==> !LiveLinksStable(topo, w)
  {
    if LiveLinksStable(topo, w) {
      forall m | m in w.bag ensures Refused(w.net, m) && m.dst in topo.peer && Live(topo, w, m.dst) {
        assert OriginOk(topo, m);
        assert topo.Linked(m.dst, topo.peer[m.dst]);
        assert Refused(w.net, m);
      }
      forall states: seq<Wires>, events: seq<WireEvent> | Chain(topo, states, events) && states[0] == w && |events| > 0
        ensures !Changes(states[|events| - 1], events[|events| - 1])
      {
        IdleForever(topo, states, events, |events| - 1);
      }
    } else {
      var e :| Live(topo, w, e) && (Beaten(topo, w.net, e) || Beaten(topo, w.net, topo.peer[e]));
      var f := topo.peer[e];
      assert topo.Linked(e, f) && topo.Linked(f, e);
      LiveLinkProvokes(topo, w, if Beaten(topo, w.net, e) then e else f);
    }
  }

  /** A settled state whose live links are stable while another is not will never be right. */
  lemma {:induction false} NeverStableAgain(topo: Topology, states: seq<Wires>, events: seq<WireEvent>, t: nat)
    requires topo.Valid() && Chain(topo, states, events) && t < |states|
    requires WireInv(topo, states[0]) && Settled(states[0]) && LiveLinksStable(topo, states[0])
      && !Stable(topo, states[0].net)
    ensures !Stable(topo, states[t].net) && SameButTimers(states[0].net, states[t].net)
  {
    var w := states[0];
    forall m | m in w.bag ensures Refused(w.net, m) && m.dst in topo.peer && Live(topo, w, m.dst) {
      assert OriginOk(topo, m);
      assert topo.Linked(m.dst, topo.peer[m.dst]);
      assert Refused(w.net, m);
    }
    IdleForever(topo, states, events, t);
    if Stable(topo, states[t].net) {
      TimersDoNotMatter(topo, states[t].net, w.net);
    }
  }

  lemma MeasureAlong(topo: Topology, states: seq<Wires>, events: seq<WireEvent>, t: nat)
    requires Chain(topo, states, events) && t < |states| && WireInv(topo, states[0])
    ensures WireInv(topo, states[t])
    ensures NetMeasure(topo.ids, states[t].net.switches) <= NetMeasure(topo.ids, states[0].net.switches)
  {
    ChainHolds(topo, states, events, t);
    if t > 0 {
      MeasureAlong(topo, states, events, t - 1);
      assert WireStepOk(topo, states, events, t - 1);
      if events[t - 1].Step? {
        EventLowersMeasure(topo, states[t - 1].net, events[t - 1].e);
      }
    }
  }

  lemma ChainsJoin(topo: Topology, a: seq<Wires>, es: seq<WireEvent>, b: seq<Wires>, fs: seq<WireEvent>)
    requires Chain(topo, a, es) && Chain(topo, b, fs) && a[|es|] == b[0]
    ensures Chain(topo, a + b[1..], es + fs)
  {
    forall k | 0 <= k < |es + fs| ensures WireStepOk(topo, a + b[1..], es + fs, k) {
      if k < |es| {
        assert WireStepOk(topo, a, es, k);
      } else {
        assert WireStepOk(topo, b, fs, k - |es|);
      }
    }
  }

  /** A continuation up to its first acceptance. */
  lemma ToNextAcceptance(topo: Topology, w: Wires) returns (states: seq<Wires>, events: seq<WireEvent>)
    requires topo.Valid() && WireInv(topo, w) && CanChange(topo, w)
    ensures Chain(topo, states, events) && states[0] == w && WireInv(topo, states[|events|])
    ensures NetMeasure(topo.ids, states[|events|].net.switches) < NetMeasure(topo.ids, w.net.switches)
    ensures NetMeasure(topo.ids, states[|events|].net.switches) >= 0
  {
    states, events :|
      && Chain(topo, states, events) && states[0] == w && |events| > 0
      && Changes(states[|events| - 1], events[|events| - 1]);
    var n := |events|;
    MeasureAlong(topo, states, events, n - 1);
    assert WireStepOk(topo, states, events, n - 1);
    EventLowersMeasure(topo, states[n - 1].net, events[n - 1].e);
    ChainHolds(topo, states, events, n);
    StateMeasureBound(topo, states[n].net);
  }

  /** Every state can be continued to one that cannot change any more, right or wrong. */
  lemma {:induction false} ComesToRest(topo: Topology, w: Wires) returns (states: seq<Wires>, events: seq<WireEvent>)
    requires topo.Valid() && WireInv(topo, w)
    ensures Chain(topo, states, events) && states[0] == w && !CanChange(topo, states[|events|])
    decreases if NetMeasure(topo.ids, w.net.switches) > 0 then NetMeasure(topo.ids, w.net.switches) else 0
  {
    states, events := [w], [];
    if CanChange(topo, w) {
      var a, es := ToNextAcceptance(topo, w);
      var b, fs := ComesToRest(topo, a[|es|]);
      ChainsJoin(topo, a, es, b, fs);
      states, events := a + b[1..], es + fs;
    }
  }
}
