/** What holds in every state of every run of interleaved flows and sweeps. */
module NatTheorems {
  import opened MachineInts
  import opened NatTable

  datatype Event = In(p: Packet, now: int) | Out(p: Packet, now: int) | SweepAt(now: int)

  function Apply(n: Nat, e: Event): (r: Nat)
    requires Shaped(n)
    ensures Kin(n, r)
  {
    match e
    case In(p, now) => TranslateIn(n, p, now).0
    case Out(p, now) => TranslateOut(n, p, now).0
    case SweepAt(now) => Sweep(n, now, HASH_8BITS)
  }

  ghost predicate Init(n: Nat) {
    && Shaped(n) && (forall h :: 0 <= h < HASH_8BITS ==> n.table[h] == [])
      && (forall p :: 0 <= p < TWO16 ==> !n.taken[p])
  }

  predicate StepOk(states: seq<Nat>, events: seq<Event>, k: nat)
    requires |states| == |events| + 1 && k < |events|
  {
    Shaped(states[k]) && states[k + 1] == Apply(states[k], events[k])
  }

  ghost predicate Run(states: seq<Nat>, events: seq<Event>) {
    && |states| == |events| + 1 && Init(states[0])
    && forall k {:trigger StepOk(states, events, k)} :: 0 <= k < |events| ==> StepOk(states, events, k)
  }

  // ---- Counting the mappings of a port ----

  function CountBucket(b: seq<Mapping>, port: int): nat {
    if b == [] then 0 else (if b[0].external.port == port then 1 else 0) + CountBucket(b[1..], port)
  }

  function CountTable(table: seq<seq<Mapping>>, port: int): nat {
    if table == [] then 0 else CountBucket(table[0], port) + CountTable(table[1..], port)
  }

  lemma {:induction false} CountAppend(b: seq<Mapping>, m: Mapping, port: int)
    ensures CountBucket(b + [m], port) == CountBucket(b, port) + if m.external.port == port then 1 else 0
  {
    if b == [] {
      assert [] + [m] == [m];
      assert [m][1..] == [];
    } else {
      assert (b + [m])[1..] == b[1..] + [m];
      CountAppend(b[1..], m, port);
    }
  }

  lemma {:induction false} CountUpdate(b: seq<Mapping>, k: nat, m: Mapping, port: int)
    requires k < |b| && m.external == b[k].external
    ensures CountBucket(b[k := m], port) == CountBucket(b, port)
  {
    if k == 0 {
      assert b[0 := m][1..] == b[1..];
    } else {
      assert b[k := m][1..] == b[1..][k - 1 := m];
      CountUpdate(b[1..], k - 1, m, port);
    }
  }

  lemma {:induction false} CountBucketChange(table: seq<seq<Mapping>>, h: nat, b: seq<Mapping>, port: int)
    requires h < |table|
    ensures CountTable(table[h := b], port)
      == CountTable(table, port) - CountBucket(table[h], port) + CountBucket(b, port)
    ensures CountBucket(table[h], port) <= CountTable(table, port)
  {
    if h == 0 {
      assert table[0 := b][1..] == table[1..];
    } else {
      assert table[h := b][1..] == table[1..][h - 1 := b];
      CountBucketChange(table[1..], h - 1, b, port);
    }
  }

  lemma {:induction false} CountPositive(b: seq<Mapping>, k: nat)
    requires k < |b|
    ensures CountBucket(b, b[k].external.port) > 0
  {
    if k > 0 {
      CountPositive(b[1..], k - 1);
    }
  }

  lemma {:induction false} CountEmpty(table: seq<seq<Mapping>>, port: int)
    requires forall h :: 0 <= h < |table| ==> table[h] == []
    ensures CountTable(table, port) == 0
  {
    if table != [] {
      CountEmpty(table[1..], port);
    }
  }

  // ---- Port pool conservation ----

  /** A port of the pool is marked exactly when one mapping uses it; no other port is ever marked. */
  predicate PortOk(table: seq<seq<Mapping>>, taken: seq<bool>, port: int)
    requires |taken| == TWO16 && 0 <= port < TWO16
  {
    if InPool(port) then CountTable(table, port) == (if taken[port] then 1 else 0) else !taken[port]
  }

  ghost predicate Conserved(n: Nat) {
    Shaped(n) && forall port {:trigger PortOk(n.table, n.taken, port)} :: 0 <= port < TWO16 ==>
      PortOk(n.table, n.taken, port)
  }

  predicate OutsidePool(rules: seq<Rule>) {
    forall r :: 0 <= r < |rules| ==> !InPool(rules[r].external.port)
  }

  lemma UpdateConserves(n: Nat, h: nat, k: nat, m: Mapping)
    requires Conserved(n) && h < HASH_8BITS && k < |n.table[h]| && m.external == n.table[h][k].external
    ensures Conserved(PutBucket(n, h, n.table[h][k := m]))
  {
    var after := PutBucket(n, h, n.table[h][k := m]);
    forall port | 0 <= port < TWO16 ensures PortOk(after.table, after.taken, port) {
      assert PortOk(n.table, n.taken, port);
      CountUpdate(n.table[h], k, m, port);
      CountBucketChange(n.table, h, n.table[h][k := m], port);
    }
  }

  lemma AddOutsideConserves(n: Nat, h: nat, m: Mapping)
    requires Conserved(n) && h < HASH_8BITS && !InPool(m.external.port)
    ensures Conserved(AddMapping(n, h, m))
  {
    var after := AddMapping(n, h, m);
    forall port | 0 <= port < TWO16 ensures PortOk(after.table, after.taken, port) {
      assert PortOk(n.table, n.taken, port);
      CountAppend(n.table[h], m, port);
      CountBucketChange(n.table, h, n.table[h] + [m], port);
    }
  }

  lemma AddAllocatedConserves(n: Nat, h: nat, m: Mapping)
    requires Conserved(n) && h < HASH_8BITS && InPool(m.external.port) && !n.taken[m.external.port]
    ensures Conserved(AddMapping(n.(taken := n.taken[m.external.port := true]), h, m))
  {
    var after := AddMapping(n.(taken := n.taken[m.external.port := true]), h, m);
    forall port | 0 <= port < TWO16 ensures PortOk(after.table, after.taken, port) {
      assert PortOk(n.table, n.taken, port);
      CountAppend(n.table[h], m, port);
      CountBucketChange(n.table, h, n.table[h] + [m], port);
    }
  }

  lemma InConserves(n: Nat, p: Packet, now: int)
    requires Conserved(n) && OutsidePool(n.rules)
    ensures Conserved(TranslateIn(n, p, now).0)
  {
    var h := Bucket(p.src);
    match FindExternal(n.table[h], p.dst)
    case Some(k) =>
      UpdateConserves(n, h, k, n.table[h][k].(conn := NoteIncoming(n.table[h][k].conn, p)));
    case None =>
      match FindRule(n.rules, p.dst) {
        case None =>
        case Some(r) =>
          var m := Mapping(p.src, n.rules[r].internal, n.rules[r].external, now, NewConnection);
          AddOutsideConserves(n, h, m);
          UpdateConserves(AddMapping(n, h, m), h, |n.table[h]|, m.(conn := NoteIncoming(m.conn, p)));
      }
  }

  lemma OutConserves(n: Nat, p: Packet, now: int)
    requires Conserved(n)
    ensures Conserved(TranslateOut(n, p, now).0)
  {
    var h := Bucket(p.dst);
    match FindInternal(n.table[h], p.src)
    case Some(k) =>
      UpdateConserves(n, h, k, n.table[h][k].(conn := NoteOutgoing(n.table[h][k].conn, p)));
    case None =>
      var (taken, port) := AllocPort(n.taken);
      var m := Mapping(p.dst, p.src, Endpoint(n.externalIp, port), now, NewConnection);
      if port == 0 {
        AddOutsideConserves(n, h, m);
      } else {
        AddAllocatedConserves(n, h, m);
      }
      UpdateConserves(AddMapping(n.(taken := taken), h, m), h, |n.table[h]|, m.(conn := NoteOutgoing(m.conn, p)));
  }

  /** One bucket's sweep, seen from one port; `others` mappings elsewhere use the port. */
  lemma {:induction false} SweepBucketConserves(b: seq<Mapping>, taken: seq<bool>, now: int, port: int, others: nat)
    requires |taken| == TWO16 && 0 <= port < TWO16
    requires InPool(port) ==> CountBucket(b, port) + others == if taken[port] then 1 else 0
    ensures var r := SweepBucket(b, taken, now);
      InPool(port) ==> CountBucket(r.0, port) + others == if r.1[port] then 1 else 0
  {
    if b != [] {
      if Expired(b[0], now) {
        SweepBucketConserves(b[1..], taken[b[0].external.port := false], now, port, others);
      } else {
        SweepBucketConserves(b[1..], taken, now, port, others + if b[0].external.port == port then 1 else 0);
        var r := SweepBucket(b, taken, now);
        assert r.0[1..] == SweepBucket(b[1..], taken, now).0;
      }
    }
  }

  lemma {:induction false} SweepConserves(n: Nat, now: int, i: nat)
    requires Conserved(n) && i <= HASH_8BITS
    ensures Conserved(Sweep(n, now, i))
  {
    if i > 0 {
      SweepConserves(n, now, i - 1);
      var m := Sweep(n, now, i - 1);
      var r := SweepBucket(m.table[i - 1], m.taken, now);
      var table := m.table[i - 1 := r.0];
      forall port | 0 <= port < TWO16 ensures PortOk(table, r.1, port) {
        assert PortOk(m.table, m.taken, port);
        CountBucketChange(m.table, i - 1, r.0, port);
        SweepBucketConserves(m.table[i - 1], m.taken, now, port,
          CountTable(m.table, port) - CountBucket(m.table[i - 1], port));
      }
    }
  }

  lemma ApplyConserves(n: Nat, e: Event)
    requires Conserved(n) && OutsidePool(n.rules)
    ensures Conserved(Apply(n, e))
  {
    match e
    case In(p, now) => InConserves(n, p, now);
    case Out(p, now) => OutConserves(n, p, now);
    case SweepAt(now) => SweepConserves(n, now, HASH_8BITS);
  }

  /** Port pool conservation over all runs: allocation, DNAT, exhaustion and sweeping. */
  lemma {:induction false} PortsConserved(states: seq<Nat>, events: seq<Event>, k: nat)
    requires Run(states, events) && OutsidePool(states[0].rules) && k < |states|
    ensures Conserved(states[k]) && states[k].rules == states[0].rules
  {
    if k == 0 {
      forall port | 0 <= port < TWO16 ensures PortOk(states[0].table, states[0].taken, port) {
        CountEmpty(states[0].table, port);
      }
    } else {
      PortsConserved(states, events, k - 1);
      assert StepOk(states, events, k - 1);
      ApplyConserves(states[k - 1], events[k - 1]);
    }
  }

  /** alloc_port returns 0 exactly when the pool is full, and otherwise the least free port. */
  lemma AllocatesLeastFree(taken: seq<bool>)
    requires |taken| == TWO16
    ensures var (after, port) := AllocPort(taken);
      && (port == 0 <==> forall q :: 12345 <= q < 23456 ==> taken[q])
      && (port != 0 ==> 12345 <= port < 23456 && !taken[port] && after == taken[port := true]
                        && forall q :: 12345 <= q < port ==> taken[q])
      && (port == 0 ==> after == taken)
  {
    var port := FreePort(taken, NAT_PORT_MIN);
    assert port != 0 ==> InPool(port) && !taken[port];
  }

  ghost predicate EveryRunConserves(rules: seq<Rule>) {
    forall states: seq<Nat>, events: seq<Event> :: Run(states, events) && states[0].rules == rules ==>
      forall k :: 0 <= k < |states| ==> Conserved(states[k])
  }

  function Fresh(rules: seq<Rule>): Nat {
    Nat(seq(HASH_8BITS, _ => []), seq(TWO16, _ => false), rules, 0)
  }

  /** The first packet from outside to a DNAT endpoint inside the pool makes a mapping whose port is
      not marked. */
  lemma DnatInsidePoolBreaks(rules: seq<Rule>, r: nat)
    requires r < |rules| && InPool(rules[r].external.port)
    ensures !EveryRunConserves(rules)
  {
    var n := Fresh(rules);
    var e := rules[r].external;
    var p := Packet(Endpoint(0, 0), e, 0, 0, 0);
    var states, events := [n, Apply(n, In(p, 0))], [In(p, 0)];
    assert StepOk(states, events, 0);
    assert Run(states, events);
    var h := Bucket(p.src);
    var after := states[1];
    var q := FindRule(rules, e).value;
    assert n.table[h] == [] && after.taken == n.taken;
    var m := after.table[h][0];
    assert |after.table[h]| == 1 && m.external == e;
    CountPositive(after.table[h], 0);
    CountBucketChange(after.table, h, [], e.port);
    assert !PortOk(after.table, after.taken, e.port);
    assert !Conserved(states[1]);
  }

  /** Conservation over all runs holds exactly for the configurations whose DNAT ports lie outside the pool. */
  lemma ConservationIffDnatOutsidePool(rules: seq<Rule>)
    ensures EveryRunConserves(rules) <==> OutsidePool(rules)
  {
    if OutsidePool(rules) {
      forall states: seq<Nat>, events: seq<Event>, k: nat | Run(states, events) && states[0].rules == rules
        && k < |states|
        ensures Conserved(states[k])
      {
        PortsConserved(states, events, k);
      }
    } else {
      var r :| 0 <= r < |rules| && InPool(rules[r].external.port);
      DnatInsidePoolBreaks(rules, r);
    }
  }
}
