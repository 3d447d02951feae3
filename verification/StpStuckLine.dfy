/** A line of four switches, with ids 2, 4, 5 and 1, on which the network comes to rest with two roots: a run of
    one hello without loss, repetition or reordering, after which no run whatever leads to a stable state. */
module StpStuckLine {
  import opened Options
  import opened StpVector
  import opened StpSwitch
  import opened StpNetwork
  import opened StpInvariant
  import opened StpTheorems
  import opened StpWires

  const FIRST := 0x8001   // PortId(0)
  const SECOND := 0x8002  // PortId(1)

  function Line(): Topology {
    Topology([2, 4, 5, 1], [1, 2, 2, 1],
             map[(0, 0) := (1, 0), (1, 0) := (0, 0), (1, 1) := (2, 0), (2, 0) := (1, 1), (2, 1) := (3, 0),
               (3, 0) := (2, 1)])
  }

  lemma LineIsValid()
    ensures Line().Valid()
  {
  }

  const Off := Timer(false, 0)

  function Two(now: int): Switch { Switch(2, 2, 0, None, Timer(true, now), [Port(FIRST, 2, 0, 2, FIRST)]) }

  function One(): Switch { Switch(1, 1, 0, None, Timer(true, 0), [Port(FIRST, 1, 0, 1, FIRST)]) }

  function Four(): Switch {
    Switch(4, 4, 0, None, Timer(true, 0), [Port(FIRST, 4, 0, 4, FIRST), Port(SECOND, 4, 0, 4, SECOND)])
  }

  function Five(): Switch {
    Switch(5, 5, 0, None, Timer(true, 0), [Port(FIRST, 5, 0, 5, FIRST), Port(SECOND, 5, 0, 5, SECOND)])
  }

  /** Switch 4 once it follows 2. */
  function FourTo2(): Switch {
    Switch(4, 2, 1, Some(0), Off, [Port(FIRST, 2, 0, 2, FIRST), Port(SECOND, 2, 1, 4, SECOND)])
  }

  /** Switch 5 once it follows 2 through 4. */
  function FiveTo2(): Switch {
    Switch(5, 2, 2, Some(0), Off, [Port(FIRST, 2, 1, 4, SECOND), Port(SECOND, 2, 2, 5, SECOND)])
  }

  /** Switch 5 once it follows 1: neither port is designated, so it says nothing to 4. */
  function FiveTo1(): Switch {
    Switch(5, 1, 1, Some(1), Off, [Port(FIRST, 2, 1, 4, SECOND), Port(SECOND, 1, 0, 1, FIRST)])
  }

  const Hello := Config(2, 0, 2, FIRST)
  const FromFour := Config(2, 1, 4, SECOND)
  const FromFive := Config(2, 2, 5, SECOND)
  const FromOne := Config(1, 0, 1, FIRST)

  lemma TwoSaysHello()
    ensures TimerRunOnce(Two(0), STP_HELLO_TIME) == (Two(STP_HELLO_TIME), [Output(0, Hello)])
  {
    var s := Two(0);
    assert ConfigOf(s, 0) == Hello;
    assert SendConfig(s, 0) == [] && SendConfig(s, 1) == [Output(0, Hello)];
  }

  lemma FourFollows()
    ensures HandleConfig(Four(), 0, Hello) == (FourTo2(), [Output(1, FromFour)])
  {
    var s := Four();
    var r := Replaced(s, 0, Hello);
    assert r.ports == [Port(FIRST, 2, 0, 2, FIRST), s.ports[1]];
    assert BestPort(4, r.ports, 1) == Some(0) && BestPort(4, r.ports, 2) == Some(0);
    var u := UpdateStatus(r);
    assert RefreshPorts(u, 1) == u.ports;
    assert RefreshPorts(u, 2) == FourTo2().ports;
    var t := FourTo2();
    assert SendConfig(t, 1) == [] && SendConfig(t, 2) == [Output(1, FromFour)];
  }

  lemma FiveFollows()
    ensures HandleConfig(Five(), 0, FromFour) == (FiveTo2(), [Output(1, FromFive)])
  {
    var s := Five();
    var r := Replaced(s, 0, FromFour);
    assert r.ports == [Port(FIRST, 2, 1, 4, SECOND), s.ports[1]];
    assert BestPort(5, r.ports, 1) == Some(0) && BestPort(5, r.ports, 2) == Some(0);
    var u := UpdateStatus(r);
    assert RefreshPorts(u, 1) == u.ports;
    assert RefreshPorts(u, 2) == FiveTo2().ports;
    var t := FiveTo2();
    assert SendConfig(t, 1) == [] && SendConfig(t, 2) == [Output(1, FromFive)];
  }

  lemma OneRefuses()
    ensures HandleConfig(One(), 0, FromFive) == (One(), [Output(0, FromOne)])
  {
  }

  lemma FiveChanges()
    ensures HandleConfig(FiveTo2(), 1, FromOne) == (FiveTo1(), [])
  {
    var s := FiveTo2();
    var r := Replaced(s, 1, FromOne);
    assert r.ports == FiveTo1().ports;
    assert BestPort(5, r.ports, 1) == Some(0) && BestPort(5, r.ports, 2) == Some(1);
    var u := UpdateStatus(r);
    assert !AtMost(u.ports[0], u.ports[1]);
    assert RefreshPorts(u, 1) == u.ports && RefreshPorts(u, 2) == u.ports;
    var t := FiveTo1();
    assert SendConfig(t, 1) == [] && SendConfig(t, 2) == [];
  }

  lemma EmitsOne(i: nat, o: Output)
    requires (i, o.port) in Line().peer
    ensures Emit(Line(), i, [o]) == {Message(Line().peer[(i, o.port)], o.config)}
    ensures Emit(Line(), i, []) == {}
  {
    assert o in [o];
  }

  const ToFour := Message((1, 0), Hello)
  const ToFive := Message((2, 0), FromFour)
  const ToOne := Message((3, 0), FromFive)
  const ToFiveAgain := Message((2, 1), FromOne)

  // The run: one hello of switch 2, and each config delivered once, as it is sent.

  function S0(): Wires { Wires(Net([Two(0), Four(), Five(), One()], {}), multiset{}) }

  function S1(): Wires { Wires(Net([Two(STP_HELLO_TIME), Four(), Five(), One()], {ToFour}), multiset{ToFour}) }

  function S2(): Wires {
    Wires(Net([Two(STP_HELLO_TIME), FourTo2(), Five(), One()], {ToFour, ToFive}), multiset{ToFive})
  }

  function S3(): Wires {
    Wires(Net([Two(STP_HELLO_TIME), FourTo2(), FiveTo2(), One()], {ToFour, ToFive, ToOne}), multiset{ToOne})
  }

  function S4(): Wires {
    Wires(Net([Two(STP_HELLO_TIME), FourTo2(), FiveTo2(), One()], {ToFour, ToFive, ToOne, ToFiveAgain}),
          multiset{ToFiveAgain})
  }

  function S5(): Wires {
    Wires(Net([Two(STP_HELLO_TIME), FourTo2(), FiveTo1(), One()], {ToFour, ToFive, ToOne, ToFiveAgain}), multiset{})
  }

  lemma StartIsInitial()
    ensures InitNet(Line(), S0().net)
  {
    assert Two(0) == Init(2, 1, 0) && Four() == Init(4, 2, 0) && Five() == Init(5, 2, 0) && One() == Init(1, 1, 0);
    StartsAt(Line(), S0().net, 0);
  }

  lemma StartsAt(topo: Topology, net: Net, now: int)
    requires |net.switches| == |topo.ids| == |topo.nports| && net.sent == {}
    requires forall i :: 0 <= i < |topo.ids| ==> net.switches[i] == Init(topo.ids[i], topo.nports[i], now)
    ensures InitNet(topo, net)
  {
    forall i | 0 <= i < |topo.ids| ensures Starts(topo, net, i) {
      assert net.switches[i] == Init(topo.ids[i], topo.nports[i], now);
    }
  }

  /** A delivery that puts one config on the wires. */
  lemma DeliveryStep(w: Wires, m: Message, t: Switch, o: Output)
    requires m in w.bag && WireEnabled(Line(), w, Step(Deliver(m))) && (m.dst.0, o.port) in Line().peer
    requires HandleConfig(w.net.switches[m.dst.0], m.dst.1, m.config) == (t, [o])
    ensures var out := Message(Line().peer[(m.dst.0, o.port)], o.config);
      WireApply(Line(), w, Step(Deliver(m)))
      == Wires(Net(w.net.switches[m.dst.0 := t], w.net.sent + {out}), w.bag - multiset{m} + multiset{out})
  {
    EmitsOne(m.dst.0, o);
  }

  lemma Step0()
    ensures WireApply(Line(), S0(), Step(Tick(0, STP_HELLO_TIME))) == S1()
  {
    TwoSaysHello();
    EmitsOne(0, Output(0, Hello));
    assert S1().net.switches == S0().net.switches[0 := Two(STP_HELLO_TIME)];
  }

  lemma Step1()
    ensures WireApply(Line(), S1(), Step(Deliver(ToFour))) == S2()
  {
    FourFollows();
    DeliveryStep(S1(), ToFour, FourTo2(), Output(1, FromFour));
    assert S2().net.switches == S1().net.switches[1 := FourTo2()];
  }

  lemma Step2()
    ensures WireApply(Line(), S2(), Step(Deliver(ToFive))) == S3()
  {
    FiveFollows();
    DeliveryStep(S2(), ToFive, FiveTo2(), Output(1, FromFive));
    assert S3().net.switches == S2().net.switches[2 := FiveTo2()];
  }

  lemma Step3()
    ensures WireApply(Line(), S3(), Step(Deliver(ToOne))) == S4()
  {
    OneRefuses();
    DeliveryStep(S3(), ToOne, One(), Output(0, FromOne));
    assert S4().net.switches == S3().net.switches[3 := One()];
  }

  lemma Step4()
    ensures WireApply(Line(), S4(), Step(Deliver(ToFiveAgain))) == S5()
  {
    FiveChanges();
    EmitsOne(2, Output(0, FromOne));
    assert S5().net.switches == S4().net.switches[2 := FiveTo1()];
  }

  /** Some run without loss, from the initial state, ends in `w`. */
  ghost predicate Reached(topo: Topology, w: Wires) {
    exists states: seq<Wires>, events: seq<WireEvent> ::
      WireRun(topo, states, events) && Lossless(events) && states[|events|] == w
  }

  lemma ReachedStep(topo: Topology, w: Wires, e: WireEvent, x: Wires)
    requires Reached(topo, w) && WireEnabled(topo, w, e) && !e.Lose? && x == WireApply(topo, w, e)
    ensures Reached(topo, x)
  {
    var states: seq<Wires>, events: seq<WireEvent> :|
      WireRun(topo, states, events) && Lossless(events) && states[|events|] == w;
    var states', events' := states + [x], events + [e];
    forall k | 0 <= k < |events'| ensures WireStepOk(topo, states', events', k) {
      if k < |events| {
        assert WireStepOk(topo, states, events, k);
      }
    }
    assert WireRun(topo, states', events') && Lossless(events') && states'[|events'|] == x;
  }

  lemma LineStarts()
    ensures Reached(Line(), S2())
  {
    StartIsInitial();
    assert WireRun(Line(), [S0()], []) && [S0()][0] == S0();
    Step0();
    ReachedStep(Line(), S0(), Step(Tick(0, STP_HELLO_TIME)), S1());
    Step1();
    ReachedStep(Line(), S1(), Step(Deliver(ToFour)), S2());
  }

  lemma LineRuns()
    ensures Reached(Line(), S5())
  {
    LineStarts();
    Step2();
    ReachedStep(Line(), S2(), Step(Deliver(ToFive)), S3());
    Step3();
    ReachedStep(Line(), S3(), Step(Deliver(ToOne)), S4());
    Step4();
    ReachedStep(Line(), S4(), Step(Deliver(ToFiveAgain)), S5());
  }

  /** At the end 2 and 4, and 1 and 5, refuse each other's configs; 4 would accept 5's, which nobody sends. */
  lemma OnlyTheMiddleIsBeaten()
    ensures LiveLinksStable(Line(), S5())
    ensures Beaten(Line(), S5().net, (2, 0))
  {
    var w := S5();
    var net := w.net;
    assert !Beaten(Line(), net, (0, 0)) && !Beaten(Line(), net, (1, 0));
    assert !Beaten(Line(), net, (2, 1)) && !Beaten(Line(), net, (3, 0));
    assert ConfigOf(FiveTo1(), 0) == Config(1, 1, 5, FIRST);
    forall e | Live(Line(), w, e) ensures !Beaten(Line(), net, e) && !Beaten(Line(), net, Line().peer[e]) {
      assert e == (0, 0) || e == (1, 0) || e == (2, 1) || e == (3, 0);
    }
  }

  /** On wires that repeat nothing of what they have delivered, a run without loss can end in a state from which
      no continuation is ever stable: switches 2 and 4 keep root 2, although 1 is there. */
  lemma LineNeverStabilizes(states: seq<Wires>, events: seq<WireEvent>, t: nat)
    requires Chain(Line(), states, events) && states[0] == S5() && t < |states|
    ensures Reached(Line(), S5()) && Line().Valid()
    ensures !Stable(Line(), states[t].net)
    ensures |states[t].net.switches| == 4 && states[t].net.switches[1].root == 2 && states[t].net.switches[2].root == 1
  {
    LineIsValid();
    LineRuns();
    var before: seq<Wires>, past: seq<WireEvent> :|
      WireRun(Line(), before, past) && Lossless(past) && before[|past|] == S5();
    InitHolds(Line(), before[0].net);
    ChainHolds(Line(), before, past, |past|);
    OnlyTheMiddleIsBeaten();
    StableIsUnbeaten(Line(), states[0].net);
    NeverStableAgain(Line(), states, events, t);
  }
}
