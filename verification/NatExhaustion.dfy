/** What a full port pool does to the round trip. */
module NatExhaustion {
  import opened MachineInts
  import opened Options
  import opened NatTable
  import opened NatTheorems
  import opened NatRoundTrip

  /** The external port of a new mapping is 0 exactly when every port of the pool is in use. */
  lemma NewMappingPort(n: Nat, p: Packet, now: int)
    requires Conserved(n) && FindInternal(n.table[Bucket(p.dst)], p.src) == None
    ensures TranslateOut(n, p, now).1.value.src.port == 0 <==>
      forall port :: InPool(port) ==> CountTable(n.table, port) == 1
  {
    AllocatesLeastFree(n.taken);
    forall port | InPool(port) ensures CountTable(n.table, port) == if n.taken[port] then 1 else 0 {
      assert PortOk(n.table, n.taken, port);
    }
    var port := AllocPort(n.taken).1;
    if port != 0 {
      assert InPool(port);
    }
  }

  // ---- Who gets a reply ----

  /** Mappings of one list may share an external endpoint, but then not the internal one. */
  predicate DistinctPairs(b: seq<Mapping>) {
    forall j, k :: 0 <= j < k < |b| && b[j].external == b[k].external ==> b[j].internal != b[k].internal
  }

  ghost predicate AllDistinct(n: Nat) {
    Shaped(n) && forall h {:trigger DistinctPairs(n.table[h])} :: 0 <= h < HASH_8BITS ==> DistinctPairs(n.table[h])
  }

  lemma OutKeepsPairs(n: Nat, p: Packet, now: int)
    requires AllDistinct(n)
    ensures AllDistinct(TranslateOut(n, p, now).0)
  {
    var h, after := Bucket(p.dst), TranslateOut(n, p, now).0;
    assert DistinctPairs(n.table[h]) && DistinctPairs(after.table[h]);
    forall g | 0 <= g < HASH_8BITS ensures DistinctPairs(after.table[g]) {
      assert DistinctPairs(n.table[g]) && (g != h ==> after.table[g] == n.table[g]);
    }
  }

  lemma InKeepsPairs(n: Nat, p: Packet, now: int)
    requires AllDistinct(n)
    ensures AllDistinct(TranslateIn(n, p, now).0)
  {
    var h, after := Bucket(p.src), TranslateIn(n, p, now).0;
    assert DistinctPairs(n.table[h]) && DistinctPairs(after.table[h]);
    forall g | 0 <= g < HASH_8BITS ensures DistinctPairs(after.table[g]) {
      assert DistinctPairs(n.table[g]) && (g != h ==> after.table[g] == n.table[g]);
    }
  }

  lemma {:induction false} FilterKeepsPairs(b: seq<Mapping>, now: int)
    requires DistinctPairs(b)
    ensures DistinctPairs(Unexpired(b, now))
  {
    if b != [] {
      FilterKeepsPairs(b[1..], now);
      var rest := Unexpired(b[1..], now);
      forall k | 0 <= k < |rest| && rest[k].external == b[0].external ensures rest[k].internal != b[0].internal {
        assert rest[k] in b[1..];
      }
    }
  }

  lemma {:induction false} PairsAlways(states: seq<Nat>, events: seq<Event>, k: nat)
    requires Run(states, events) && k < |states|
    ensures AllDistinct(states[k])
  {
    if k > 0 {
      PairsAlways(states, events, k - 1);
      assert StepOk(states, events, k - 1);
      match events[k - 1]
      case In(p, now) => InKeepsPairs(states[k - 1], p, now);
      case Out(p, now) => OutKeepsPairs(states[k - 1], p, now);
      case SweepAt(now) =>
        forall h | 0 <= h < HASH_8BITS ensures DistinctPairs(states[k].table[h]) {
          assert DistinctPairs(states[k - 1].table[h]);
          SweepFilters(states[k - 1], now, HASH_8BITS, h);
          FilterKeepsPairs(states[k - 1].table[h], now);
        }
    }
  }

  /** In every state of every run, whatever the rules and the pool: a reply to the external endpoint of a mapping
      reaches its internal endpoint exactly when no earlier mapping of the list has the same external endpoint. */
  lemma ReplyReachesIffFirst(states: seq<Nat>, events: seq<Event>, t: nat, k: nat, q: Packet, now: int)
    requires Run(states, events) && t < |states| && Shaped(states[t]) && k < |states[t].table[Bucket(q.src)]|
    requires q.dst == states[t].table[Bucket(q.src)][k].external
    ensures var b := states[t].table[Bucket(q.src)];
      TranslateIn(states[t], q, now).1 == Some(q.(dst := b[k].internal)) <==>
      forall j :: 0 <= j < k ==> b[j].external != q.dst
  {
    PairsAlways(states, events, t);
    var b := states[t].table[Bucket(q.src)];
    assert DistinctPairs(b);
    var first := FindExternal(b, q.dst).value;
    assert TranslateIn(states[t], q, now).1 == Some(q.(dst := b[first].internal));
    assert first <= k && b[first].external == b[k].external;
  }

  // ---- A run that fills the pool ----

  const POOL := NAT_PORT_MAX - NAT_PORT_MIN

  function Remote(): Endpoint { Endpoint(0, 0) }

  /** The packet of flow `i`: one host, one remote, a port for each flow. */
  function Flow(i: nat): Packet
    requires i < TWO16
  {
    Packet(Endpoint(1, i), Remote(), 0, 0, 0)
  }

  /** What flow `i` leaves as. */
  function Outside(i: nat): Endpoint { Endpoint(0, if i < POOL then NAT_PORT_MIN + i else 0) }

  function FlowMapping(i: nat): Mapping
    requires i < TWO16
  {
    Mapping(Remote(), Endpoint(1, i), Outside(i), 0, NoteOutgoing(NewConnection, Flow(i)))
  }

  function FlowMappings(k: nat): (b: seq<Mapping>)
    requires k <= TWO16
    ensures |b| == k && forall i :: 0 <= i < k ==> b[i] == FlowMapping(i)
  {
    seq(k, i requires 0 <= i < k => FlowMapping(i))
  }

  function Marks(k: nat): (s: seq<bool>)
    ensures |s| == TWO16
    ensures forall p :: 0 <= p < TWO16 ==> (s[p] <==> NAT_PORT_MIN <= p < NAT_PORT_MAX && p < NAT_PORT_MIN + k)
  {
    seq(TWO16, p => NAT_PORT_MIN <= p < NAT_PORT_MAX && p < NAT_PORT_MIN + k)
  }

  /** The table after the first `k` flows. */
  function After(k: nat): Nat
    requires k <= TWO16
  {
    var n := Fresh([]);
    n.(table := n.table[Bucket(Remote()) := FlowMappings(k)], taken := Marks(k))
  }

  lemma PoolAllocates(k: nat)
    requires k < TWO16
    ensures AllocPort(Marks(k)) == (Marks(k + 1), Outside(k).port)
  {
    AllocatesLeastFree(Marks(k));
    var port := AllocPort(Marks(k)).1;
    if k < POOL {
      assert !Marks(k)[NAT_PORT_MIN + k];
      assert port != 0 && port == NAT_PORT_MIN + k;
      assert Marks(k)[port := true] == Marks(k + 1);
    } else {
      assert Marks(k) == Marks(k + 1);
    }
  }

  lemma NextFlow(k: nat)
    requires k < TWO16
    ensures TranslateOut(After(k), Flow(k), 0) == (After(k + 1), Some(Flow(k).(src := Outside(k))))
  {
    var n, h := After(k), Bucket(Remote());
    var b := FlowMappings(k);
    assert n.table[h] == b && FindInternal(b, Endpoint(1, k)) == None;
    PoolAllocates(k);
    var m := Mapping(Remote(), Endpoint(1, k), Outside(k), 0, NewConnection);
    assert (b + [m])[k := FlowMapping(k)] == FlowMappings(k + 1);
    var table := n.table[h := b + [m]];
    assert table[h := FlowMappings(k + 1)] == After(k + 1).table;
  }

  function FlowStates(k: nat): seq<Nat>
    requires k <= TWO16
  {
    seq(k + 1, i requires 0 <= i <= k => After(i))
  }

  function FlowEvents(k: nat): seq<Event>
    requires k <= TWO16
  {
    seq(k, i requires 0 <= i < k => Out(Flow(i), 0))
  }

  lemma FlowsRun(k: nat)
    requires k <= TWO16
    ensures Run(FlowStates(k), FlowEvents(k))
  {
    var states, events := FlowStates(k), FlowEvents(k);
    forall i | 0 <= i < k ensures StepOk(states, events, i) {
      NextFlow(i);
    }
    assert After(0).table == Fresh([]).table;
  }

  /** One flow for each port of the pool, and two more: those share external port 0, and a reply to the second of
      them reaches the first. */
  lemma ExhaustionMisdelivers(q: Packet)
    requires q.src == Remote() && q.dst == Endpoint(0, 0)
    ensures Run(FlowStates(POOL + 2), FlowEvents(POOL + 2))
    ensures TranslateOut(After(POOL + 1), Flow(POOL + 1), 0).1 == Some(Flow(POOL + 1).(src := q.dst))
    ensures TranslateIn(After(POOL + 2), q, 0).1 == Some(q.(dst := Flow(POOL).src))
  {
    FlowsRun(POOL + 2);
    NextFlow(POOL + 1);
    var b := FlowMappings(POOL + 2);
    assert b[POOL].external == q.dst && forall j :: 0 <= j < POOL ==> b[j].external != q.dst;
    assert FindExternal(b, q.dst) == Some(POOL);
  }

  /** A single flow on port 0 still gets its replies. */
  lemma FirstOnPortZeroIsServed(q: Packet)
    requires q.src == Remote() && q.dst == Endpoint(0, 0)
    ensures Run(FlowStates(POOL + 1), FlowEvents(POOL + 1))
    ensures TranslateOut(After(POOL), Flow(POOL), 0).1 == Some(Flow(POOL).(src := q.dst))
    ensures TranslateIn(After(POOL + 1), q, 0).1 == Some(q.(dst := Flow(POOL).src))
  {
    FlowsRun(POOL + 1);
    NextFlow(POOL);
    var b := FlowMappings(POOL + 1);
    assert b[POOL].external == q.dst && forall j :: 0 <= j < POOL ==> b[j].external != q.dst;
    assert FindExternal(b, q.dst) == Some(POOL);
  }
}
