/** What one switch computes on each event, as functions on its state (04_stp/stp.c, stp_timer.c). */
module StpSwitch {
  import opened MachineInts
  import opened Options
  import opened StpVector

  const STP_MAX_PORTS := 32
  const STP_HELLO_TIME := 512  // 2000 * 256 / 1000 ticks

  datatype Timer = Timer(active: bool, time: int)

  datatype Switch = Switch(id: nat, root: nat, cost: int, rootPort: Option<nat>, timer: Timer, ports: seq<Port>)

  /** A config leaving through the port with index `port`. */
  datatype Output = Output(port: nat, config: Config)

  predicate IsRoot(s: Switch) { s.root == s.id }

  predicate IsDesignated(id: nat, p: Port) {
    p.switchId == id && p.port == p.portId
  }

  function PortId(index: nat): int { 0x8000 + index + 1 }

  function InitPort(id: nat, index: nat): Port {
    Port(PortId(index), id, 0, id, PortId(index))
  }

  function Init(id: nat, nports: nat, now: int): Switch {
    Switch(id, id, 0, None, Timer(true, now), seq(nports, k requires 0 <= k => InitPort(id, k)))
  }

  /** The scan of update_stp_status over the first `n` ports. */
  function BestPort(id: nat, ports: seq<Port>, n: nat): (b: Option<nat>)
    requires n <= |ports|
    ensures b.Some? ==> b.value < n
  {
    if n == 0 then None
    else
      var b := BestPort(id, ports, n - 1);
      if IsDesignated(id, ports[n - 1]) then b
      else if b == None || PortPriorityCmp(ports[b.value], ports[n - 1]) then Some(n - 1)
      else b
  }

  function UpdateStatus(s: Switch): Switch {
    match BestPort(s.id, s.ports, |s.ports|)
    case None => s.(rootPort := None, root := s.id, cost := 0)
    case Some(b) =>
      s.(rootPort := Some(b), root := s.ports[b].root, cost := Int32(s.ports[b].cost + 1))
  }

  /** DP_all_priority_cmp: no non-designated port has a strictly better vector than `p`. */
  predicate DpAllPriorityCmp(p: Port, id: nat, ports: seq<Port>) {
    forall k :: 0 <= k < |ports| && !IsDesignated(id, ports[k]) ==> AtMost(p, ports[k])
  }

  predicate IsRootPort(s: Switch, ports: seq<Port>, k: nat)
    requires k < |ports|
  {
    s.rootPort.Some? && s.rootPort.value < |ports| && ports[k].portId == ports[s.rootPort.value].portId
  }

  /** One iteration of update_port_config. */
  function RefreshPort(s: Switch, ports: seq<Port>, k: nat): Port
    requires k < |ports|
  {
    var p := ports[k];
    if IsDesignated(s.id, p) then p.(root := s.root, cost := s.cost)
    else if !IsRootPort(s, ports, k) && DpAllPriorityCmp(p, s.id, ports) then
      p.(switchId := s.id, port := p.portId)
    else p
  }

  /** update_port_config up to port `n`, each iteration seeing the ports as the earlier ones left them. */
  function RefreshPorts(s: Switch, n: nat): (r: seq<Port>)
    requires n <= |s.ports|
    ensures |r| == |s.ports|
    ensures forall k :: 0 <= k < |r| ==> r[k].portId == s.ports[k].portId
    ensures forall k :: n <= k < |r| ==> r[k] == s.ports[k]
  {
    if n == 0 then s.ports
    else
      var before := RefreshPorts(s, n - 1);
      before[n - 1 := RefreshPort(s, before, n - 1)]
  }

  function UpdatePortConfig(s: Switch): Switch {
    s.(ports := RefreshPorts(s, |s.ports|))
  }

  function ConfigOf(s: Switch, k: nat): Config
    requires k < |s.ports|
  {
    Config(s.root, U32(s.cost), s.id, U16(s.ports[k].portId))
  }

  function PortSendConfig(s: Switch, k: nat): seq<Output>
    requires k < |s.ports|
  {
    if !IsRoot(s) && s.rootPort == None then [] else [Output(k, ConfigOf(s, k))]
  }

  /** stp_send_config over the first `n` ports. */
  function SendConfig(s: Switch, n: nat): seq<Output>
    requires n <= |s.ports|
  {
    if n == 0 then []
    else SendConfig(s, n - 1) + if IsDesignated(s.id, s.ports[n - 1]) then PortSendConfig(s, n - 1) else []
  }

  function StopTimerUnlessRoot(s: Switch): Switch {
    if IsRoot(s) then s else s.(timer := s.timer.(active := false))
  }

  /** The state after a config has been accepted on port `p`. */
  function Accept(s: Switch, p: nat, c: Config): Switch
    requires p < |s.ports|
  {
    var replaced := s.(ports := s.ports[p := ReplacePortConfig(s.ports[p], c)]);
    StopTimerUnlessRoot(UpdatePortConfig(UpdateStatus(replaced)))
  }

  function HandleConfig(s: Switch, p: nat, c: Config): (Switch, seq<Output>)
    requires p < |s.ports|
  {
    if ConfigPriorityCmp(s.ports[p], c) then
      var t := Accept(s, p, c);
      (t, SendConfig(t, |t.ports|))
    else (s, PortSendConfig(s, p))
  }

  predicate TimerFires(t: Timer, now: int) {
    t.active && now >= t.time + STP_HELLO_TIME
  }

  /** stp_timer_run_once with the hello handler: the timer is cleared, configs go out, it is restarted. */
  function TimerRunOnce(s: Switch, now: int): (Switch, seq<Output>) {
    if TimerFires(s.timer, now) then (s.(timer := Timer(true, now)), SendConfig(s, |s.ports|))
    else (s, [])
  }

  // ---- What the scan and the refresh mean ----

  /** The root port is the first non-designated port with a minimal vector; there is none exactly
      when every port is designated. */
  lemma {:induction false} BestPortIsFirstMinimum(id: nat, ports: seq<Port>, n: nat)
    requires n <= |ports|
    ensures var b := BestPort(id, ports, n);
      && (b == None <==> forall k :: 0 <= k < n ==> IsDesignated(id, ports[k]))
      && (b.Some? ==>
            && !IsDesignated(id, ports[b.value])
            && (forall k :: 0 <= k < n && !IsDesignated(id, ports[k]) ==> AtMost(ports[b.value], ports[k]))
            && (forall k :: 0 <= k < b.value && !IsDesignated(id, ports[k]) ==>
              PortPriorityCmp(ports[k], ports[b.value])))
  {
    if n > 0 {
      BestPortIsFirstMinimum(id, ports, n - 1);
    }
  }

  /** The scan reads only which ports are designated and the vectors of the others. */
  lemma {:induction false} BestPortDependsOnNonDesignated(id: nat, a: seq<Port>, b: seq<Port>, n: nat)
    requires n <= |a| == |b|
    requires forall k :: 0 <= k < n ==> (IsDesignated(id, a[k]) <==> IsDesignated(id, b[k]))
    requires forall k :: 0 <= k < n && !IsDesignated(id, a[k]) ==> a[k] == b[k]
    ensures BestPort(id, a, n) == BestPort(id, b, n)
  {
    if n > 0 {
      BestPortDependsOnNonDesignated(id, a, b, n - 1);
      BestPortIsFirstMinimum(id, a, n - 1);
    }
  }

  predicate DistinctPortIds(ports: seq<Port>) {
    forall j, k :: 0 <= j < k < |ports| ==> ports[j].portId != ports[k].portId
  }

  /** No port other than `b` carries exactly the vector of port `b`. */
  predicate NoTie(id: nat, ports: seq<Port>, b: nat)
    requires b < |ports|
  {
    forall k :: 0 <= k < |ports| && k != b && !IsDesignated(id, ports[k]) ==> !SameVector(ports[k], ports[b])
  }

  /** What the refresh makes of port `k`: a designated port takes the switch's pair, a port that ties with the root
      port is promoted, every other port stays. */
  function Refreshed(s: Switch, k: nat): Port
    requires k < |s.ports|
  {
    var p := s.ports[k];
    if IsDesignated(s.id, p) then p.(root := s.root, cost := s.cost)
    else if s.rootPort.Some? && s.rootPort.value < |s.ports| && k != s.rootPort.value
            && SameVector(p, s.ports[s.rootPort.value]) then p.(switchId := s.id, port := p.portId)
    else p
  }

  /** The whole in-place loop, ties included: what it does to a port depends only on the ports as they were before
      it, although each iteration sees what the earlier ones have changed. */
  lemma {:induction false} RefreshIsExact(s: Switch, n: nat)
    requires n <= |s.ports| && DistinctPortIds(s.ports)
    requires s.rootPort == BestPort(s.id, s.ports, |s.ports|)
    ensures forall k :: 0 <= k < n ==> RefreshPorts(s, n)[k] == Refreshed(s, k)
  {
    if n > 0 {
      RefreshIsExact(s, n - 1);
      BestPortIsFirstMinimum(s.id, s.ports, |s.ports|);
      var before, p := RefreshPorts(s, n - 1), s.ports[n - 1];
      if !IsDesignated(s.id, p) && n - 1 != s.rootPort.value {
        var b := s.rootPort.value;
        assert before[b] == s.ports[b];
        if !SameVector(p, s.ports[b]) {
          assert !AtMost(p, before[b]);
        } else {
          assert forall k :: 0 <= k < |before| && !IsDesignated(s.id, before[k]) ==> before[k] == s.ports[k];
        }
      }
    }
  }

  /** The vector of port `b` beats or equals those of the other non-designated ports, and beats those before it. */
  predicate FirstMinimum(id: nat, ports: seq<Port>, b: nat) {
    && b < |ports| && !IsDesignated(id, ports[b])
    && (forall k :: 0 <= k < |ports| && !IsDesignated(id, ports[k]) ==> AtMost(ports[b], ports[k]))
    && (forall k :: 0 <= k < b && !IsDesignated(id, ports[k]) ==> PortPriorityCmp(ports[k], ports[b]))
  }

  /** What an accepted config makes of a switch. The port takes the config. The switch follows the first minimal port
      that is not designated, one further from the same root; with no such port it is its own root again. Its timer
      runs on only at a root. The ports are refreshed with the new pair. */
  lemma AcceptIsExact(s: Switch, p: nat, c: Config)
    requires p < |s.ports| && DistinctPortIds(s.ports)
    ensures var t, ports := Accept(s, p, c), s.ports[p := Port(s.ports[p].portId, c.root, Int32(c.cost), c.switchId,
                                                               c.portId)];
      && t.id == s.id && t.timer.time == s.timer.time && (t.timer.active <==> s.timer.active && t.root == s.id)
      && (match t.rootPort
          case None =>
            && (forall k :: 0 <= k < |ports| ==> IsDesignated(s.id, ports[k]))
            && t.root == s.id && t.cost == 0
          case Some(b) =>
            && FirstMinimum(s.id, ports, b)
            && t.root == ports[b].root && t.cost == Int32(ports[b].cost + 1))
      && |t.ports| == |ports| && forall k :: 0 <= k < |ports| ==> t.ports[k] == Refreshed(t.(ports := ports), k)
  {
    var u := UpdateStatus(s.(ports := s.ports[p := ReplacePortConfig(s.ports[p], c)]));
    BestPortIsFirstMinimum(s.id, u.ports, |u.ports|);
    RefreshIsExact(u, |u.ports|);
  }

  predicate RefreshedTo(s: Switch, before: Port, after: Port) {
    after == if IsDesignated(s.id, before) then before.(root := s.root, cost := s.cost) else before
  }

  /** Without such a tie the in-place loop gives every designated port the switch's own
      (root, cost) and leaves every other port alone. */
  lemma RefreshIsPointwise(s: Switch, n: nat)
    requires n <= |s.ports| && DistinctPortIds(s.ports)
    requires s.rootPort == BestPort(s.id, s.ports, |s.ports|)
    requires s.rootPort.Some? ==> NoTie(s.id, s.ports, s.rootPort.value)
    ensures forall k :: 0 <= k < n ==> RefreshedTo(s, s.ports[k], RefreshPorts(s, n)[k])
  {
    RefreshIsExact(s, n);
    BestPortIsFirstMinimum(s.id, s.ports, |s.ports|);
  }

  /** stp_send_config sends the current config on exactly the designated ports, and on none when
      the switch is neither root nor has a root port. */
  lemma {:induction false} SendConfigCoversDesignated(s: Switch, n: nat, o: Output)
    requires n <= |s.ports|
    ensures o in SendConfig(s, n) <==>
      && (IsRoot(s) || s.rootPort.Some?)
      && o.port < n && IsDesignated(s.id, s.ports[o.port]) && o.config == ConfigOf(s, o.port)
  {
    if n > 0 {
      SendConfigCoversDesignated(s, n - 1, o);
    }
  }
}
