/** The switch as the C code keeps it: fields and a port array updated in place by index loops
    (04_stp/stp.c, stp_timer.c). Every method is proved against the functions of StpSwitch. */
module StpDevice {
  import opened MachineInts
  import opened Options
  import opened StpVector
  import opened StpSwitch

  class Device {
    const id: nat
    var root: nat
    var cost: int
    var rootPort: Option<nat>
    var timerActive: bool
    var timerTime: int
    const ports: array<Port>

    function View(): Switch
      reads this, ports
    {
      Switch(id, root, cost, rootPort, Timer(timerActive, timerTime), ports[..])
    }

    /** stp_init, for a switch whose id has been read from its first interface. */
    constructor (id: nat, nports: nat, now: int)
      requires nports <= STP_MAX_PORTS
      ensures View() == Init(id, nports, now) && fresh(ports)
    {
      this.id := id;
      root, cost, rootPort := id, 0, None;
      timerActive, timerTime := true, now;
      ports := new Port[nports](k requires 0 <= k => InitPort(id, k));
      new;
      assert ports[..] == Init(id, nports, now).ports;
    }

    /** update_stp_status. */
    method UpdateStpStatus()
      modifies `root, `cost, `rootPort
      ensures View() == UpdateStatus(old(View()))
    {
      var best: Option<nat> := None;
      for i := 0 to ports.Length
        invariant best.Some? ==> best.value < i
        invariant best == BestPort(id, ports[..], i)
      {
        if !IsDesignated(id, ports[i]) {
          if best == None || PortPriorityCmp(ports[best.value], ports[i]) {
            best := Some(i);
          }
        }
      }
      if best == None {
        rootPort, root, cost := None, id, 0;
      } else {
        rootPort := best;
        root := ports[best.value].root;
        cost := Int32(ports[best.value].cost + 1);
      }
    }

    /** DP_all_priority_cmp. */
    method CompareWithAll(p: Port) returns (best: bool)
      ensures best <==> DpAllPriorityCmp(p, id, ports[..])
    {
      for i := 0 to ports.Length
        invariant forall k :: 0 <= k < i && !IsDesignated(id, ports[k]) ==> AtMost(p, ports[k])
      {
        if !IsDesignated(id, ports[i]) && PortPriorityCmp(p, ports[i]) {
          assert !IsDesignated(id, ports[..][i]) && !AtMost(p, ports[..][i]);
          return false;
        }
      }
      return true;
    }

    /** update_port_config: each iteration sees the ports as the earlier ones left them. */
    method UpdatePorts()
      requires rootPort.Some? ==> rootPort.value < ports.Length
      modifies ports
      ensures View() == UpdatePortConfig(old(View()))
    {
      ghost var before := View();
      for i := 0 to ports.Length
        invariant ports[..] == RefreshPorts(before, i)
      {
        var p := ports[i];
        if IsDesignated(id, p) {
          ports[i] := p.(root := root, cost := cost);
        } else if !(rootPort.Some? && p.portId == ports[rootPort.value].portId) {
          var best := CompareWithAll(p);
          if best {
            ports[i] := p.(switchId := id, port := p.portId);
          }
        }
      }
    }

    method SendOnPort(p: nat) returns (out: seq<Output>)
      requires p < ports.Length
      ensures out == PortSendConfig(View(), p)
    {
      if root != id && rootPort == None {
        return [];
      }
      return [Output(p, Config(root, U32(cost), id, U16(ports[p].portId)))];
    }

    /** stp_send_config. */
    method SendConfigs() returns (out: seq<Output>)
      ensures out == SendConfig(View(), ports.Length)
    {
      out := [];
      for i := 0 to ports.Length
        invariant out == SendConfig(View(), i)
      {
        if IsDesignated(id, ports[i]) {
          var one := SendOnPort(i);
          out := out + one;
        }
      }
    }

    /** stp_handle_config_packet; `out` is what leaves through the interfaces. */
    method HandleConfigPacket(p: nat, c: Config) returns (out: seq<Output>)
      requires p < ports.Length
      modifies this, ports
      ensures (View(), out) == HandleConfig(old(View()), p, c)
    {
      if ConfigPriorityCmp(ports[p], c) {
        ghost var replaced := old(View()).(ports := old(View()).ports[p := ReplacePortConfig(ports[p], c)]);
        ports[p] := ReplacePortConfig(ports[p], c);
        assert View() == replaced;
        UpdateStpStatus();
        UpdatePorts();
        if root != id {
          timerActive := false;
        }
        out := SendConfigs();
      } else {
        out := SendOnPort(p);
      }
    }

    /** stp_timer_run_once for the hello timer: the check clears it, the handler sends and restarts it. */
    method RunTimer(now: int) returns (out: seq<Output>)
      modifies this
      ensures (View(), out) == TimerRunOnce(old(View()), now)
      ensures !(old(timerActive) && now - old(timerTime) >= 512) ==> out == [] && View() == old(View())
      ensures old(timerActive) && now - old(timerTime) >= 512 ==>
        timerActive && timerTime == now && out == SendConfig(View(), ports.Length)
    {
      out := [];
      if timerActive && now >= timerTime + STP_HELLO_TIME {
        timerActive := false;
        out := SendConfigs();
        SendConfigIgnoresTimer(View(), Timer(true, now), ports.Length);
        SendConfigIgnoresTimer(View(), old(View()).timer, ports.Length);
        timerActive, timerTime := true, now;
      }
    }
  }

  lemma {:induction false} SendConfigIgnoresTimer(s: Switch, t: Timer, n: nat)
    requires n <= |s.ports|
    ensures SendConfig(s.(timer := t), n) == SendConfig(s, n)
  {
    if n > 0 {
      SendConfigIgnoresTimer(s, t, n - 1);
    }
  }
}
