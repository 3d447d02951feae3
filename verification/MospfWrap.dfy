/** A router's 65537th LSU carries number 0 again and is refused while the entry with number 65535 lives: without
    changes of neighbours nothing is lost by it but the number, with one the news is. */
module MospfWrap {
  import opened MachineInts
  import opened Options
  import opened MospfRouter
  import opened MospfNetwork
  import opened MospfFlooding

  function OnlyNbr(id: Addr): Iface { Iface(0, 0, [Neighbour(id, 0, 0, 0)]) }

  function BothNbrs(b: Addr, c: Addr): Iface { Iface(0, 0, [Neighbour(b, 0, 0, 0), Neighbour(c, 0, 0, 0)]) }

  function OldLsas(b: Addr): seq<Lsa> { Advertise([OnlyNbr(b)], 1) }

  function NewLsas(b: Addr, c: Addr): seq<Lsa> { Advertise([BothNbrs(b, c)], 1) }

  function Origin(a: Addr, b: Addr, k: nat): Router { Router(a, U16(k), [OnlyNbr(b)], []) }

  function Receiver(a: Addr, b: Addr, k: nat): Router {
    Router(b, 0, [OnlyNbr(a)], if k == 0 then [] else [Entry(a, U16(k - 1), 0, OldLsas(b))])
  }

  function LsuTo(a: Addr, b: Addr, k: nat): Send { Send(b, 0, Lsu(a, U16(k), MAX_LSU_TTL, OldLsas(b))) }

  /** Two routers after `k` LSUs of the first, each delivered to the second. */
  function Pair(a: Addr, b: Addr, k: nat): Net {
    Net([Origin(a, b, k), Receiver(a, b, k)], multiset{}, [seq(k, i => OldLsas(b)), []])
  }

  lemma ReachedAnyhow(net: Net)
    requires Reached(net, true)
    ensures Reached(net, false)
  {
    var states: seq<Net>, events: seq<Event> :| EndsAt(states, events, net, true);
    assert EndsAt(states, events, net, false);
  }

  lemma SendsToOnly(id: Addr, lsu: Lsu, except: Addr)
    ensures Broadcast([OnlyNbr(id)], 1, lsu, except) == if id == except then [] else [Send(id, 0, lsu)]
  {
    var nbrs := OnlyNbr(id).nbrs;
    assert BroadcastIface(nbrs, 0, lsu, except) == [] && Broadcast([OnlyNbr(id)], 0, lsu, except) == [];
  }

  lemma OriginSends(a: Addr, b: Addr, k: nat)
    requires b != 0
    ensures SendLsu(Origin(a, b, k)) == (Origin(a, b, k + 1), [LsuTo(a, b, k)])
  {
    assert OwnLsu(Origin(a, b, k)) == LsuTo(a, b, k).lsu;
    SendsToOnly(b, LsuTo(a, b, k).lsu, 0);
    U16Successor(k);
  }

  lemma ReceiverTakes(a: Addr, b: Addr, k: nat)
    requires a != b && k < TWO16
    ensures HandleLsu(Receiver(a, b, k), LsuTo(a, b, k).lsu) == (Receiver(a, b, k + 1), [])
  {
    var r, lsu := Receiver(a, b, k), LsuTo(a, b, k).lsu;
    SendsToOnly(a, lsu.(ttl := lsu.ttl - 1), a);
    assert FindEntry(r.db, a) == if k == 0 then None else Some(0);
    var e := Entry(a, k, 0, OldLsas(b));
    assert StoreLsu(r.db, lsu) == [e];
  }

  /** The first router sends its next LSU. */
  lemma PairOriginates(a: Addr, b: Addr, k: nat)
    requires b != 0
    ensures Enabled(Pair(a, b, k), Originate(0))
    ensures Apply(Pair(a, b, k), Originate(0))
         == Net([Origin(a, b, k + 1), Receiver(a, b, k)], multiset{LsuTo(a, b, k)},
                [seq(k + 1, i => OldLsas(b)), []])
  {
    var net, m := Pair(a, b, k), LsuTo(a, b, k);
    var history := [seq(k + 1, i => OldLsas(b)), []];
    OriginSends(a, b, k);
    assert U16(k + 1) != U16(k);
    assert net.history[0] + [OldLsas(b)] == history[0];
    assert net.history[0 := history[0]] == history;
    assert multiset([m]) == multiset{m};
    assert [Origin(a, b, k + 1), Receiver(a, b, k)] == net.routers[0 := Origin(a, b, k + 1)];
  }

  /** The second takes it. */
  lemma PairDelivers(a: Addr, b: Addr, k: nat, sent: Net)
    requires a != b && k < TWO16
    requires sent == Net([Origin(a, b, k + 1), Receiver(a, b, k)], multiset{LsuTo(a, b, k)},
                         [seq(k + 1, i => OldLsas(b)), []])
    ensures Enabled(sent, Deliver(1, LsuTo(a, b, k)))
    ensures Apply(sent, Deliver(1, LsuTo(a, b, k))) == Pair(a, b, k + 1)
  {
    var m := LsuTo(a, b, k);
    ReceiverTakes(a, b, k);
    assert Pair(a, b, k + 1).routers == sent.routers[1 := Receiver(a, b, k + 1)];
    assert sent.bag - multiset{m} + multiset([]) == multiset{};
  }

  lemma Round(a: Addr, b: Addr, k: nat)
    requires a != b && b != 0 && k < TWO16 && Reached(Pair(a, b, k), true)
    ensures Reached(Pair(a, b, k + 1), true)
  {
    PairOriginates(a, b, k);
    var sent := Apply(Pair(a, b, k), Originate(0));
    ReachedStep(Pair(a, b, k), Originate(0), sent, true);
    PairDelivers(a, b, k, sent);
    ReachedStep(sent, Deliver(1, LsuTo(a, b, k)), Pair(a, b, k + 1), true);
  }

  lemma NoRoundsYet(a: Addr, b: Addr)
    requires a != b && b != 0
    ensures Reached(Pair(a, b, 0), true)
  {
    var net := Pair(a, b, 0);
    assert net.routers[0].ifaces[0].nbrs[0].id == b && net.routers[1].ifaces[0].nbrs[0].id == a;
    var states, events: seq<Event> := [net], [];
    assert net.history[0] == [];
    assert EndsAt(states, events, net, true);
  }

  lemma {:induction false} Rounds(a: Addr, b: Addr, k: nat)
    requires a != b && b != 0 && k <= TWO16
    ensures Reached(Pair(a, b, k), true)
  {
    if k == 0 {
      NoRoundsYet(a, b);
    } else {
      Rounds(a, b, k - 1);
      Round(a, b, k - 1);
    }
  }

  // ---- Without changes of neighbours only the number goes stale ----

  /** Router `d` stores the number `s` for router `o`. */
  ghost predicate StoresNumber(net: Net, o: nat, d: nat, s: u16)
    requires o < |net.routers| && d < |net.routers|
  {
    exists k :: 0 <= k < |net.routers[d].db| && net.routers[d].db[k].rid == net.routers[o].rid
                && net.routers[d].db[k].seqNum == s
  }

  /** When a flooding run is at rest, the number that a reachable router stores is that of the origin's newest LSU
      exactly as long as no number has come round, and again whenever 65535 has. */
  lemma NumberIsNewestIff(states: seq<Net>, events: seq<Event>, t: nat, path: seq<nat>)
    requires ReliableRun(states, events) && t < |states| && states[t].bag == multiset{}
    requires NeighbourPath(states[t], path) && path[0] != path[|path| - 1]
    requires |states[t].history| == |states[t].routers| && |states[t].history[path[0]]| > 0
    ensures var n := |states[t].history[path[0]]|;
      StoresNumber(states[t], path[0], path[|path| - 1], U16(n - 1)) <==> n <= TWO16 || n % TWO16 == 0
  {
    FloodingComplete(states, events, t, path);
    RunHolds(states, events, t, t);
    assert RouterOk(states[t], path[|path| - 1]);
    HighestIsNewest(|states[t].history[path[0]]|);
  }

  lemma HighestIsNewest(n: nat)
    requires n > 0
    ensures HighestNumber(n) == U16(n - 1) <==> n <= TWO16 || n % TWO16 == 0
  {
  }

  lemma PairRefuses(a: Addr, b: Addr, sent: Net)
    requires sent == Net([Origin(a, b, TWO16 + 1), Receiver(a, b, TWO16)], multiset{LsuTo(a, b, TWO16)},
                         [seq(TWO16 + 1, i => OldLsas(b)), []])
    ensures Enabled(sent, Deliver(1, LsuTo(a, b, TWO16)))
    ensures Apply(sent, Deliver(1, LsuTo(a, b, TWO16))) == sent.(bag := multiset{})
  {
    assert FindEntry(Receiver(a, b, TWO16).db, a) == Some(0);
    assert sent.routers[1 := Receiver(a, b, TWO16)] == sent.routers;
    assert sent.bag - multiset{LsuTo(a, b, TWO16)} + multiset([]) == multiset{};
  }

  /** The 65537th LSU says nothing new, and is refused. */
  lemma WrappedNumberIsRefused(a: Addr, b: Addr) returns (net: Net)
    requires a != b && b != 0
    ensures Reached(net, true) && net.bag == multiset{} && |net.routers| == |net.history| == 2
    ensures |net.history[0]| == TWO16 + 1 && net.routers[1].db == [Entry(a, 65535, 0, OldLsas(b))]
  {
    RefusedIsReached(a, b);
    net := Net([Origin(a, b, TWO16 + 1), Receiver(a, b, TWO16)], multiset{},
               [seq(TWO16 + 1, i => OldLsas(b)), []]);
  }

  lemma RefusedIsReached(a: Addr, b: Addr)
    requires a != b && b != 0
    ensures Reached(Net([Origin(a, b, TWO16 + 1), Receiver(a, b, TWO16)], multiset{},
                        [seq(TWO16 + 1, i => OldLsas(b)), []]), true)
  {
    Rounds(a, b, TWO16);
    PairOriginates(a, b, TWO16);
    var sent := Apply(Pair(a, b, TWO16), Originate(0));
    ReachedStep(Pair(a, b, TWO16), Originate(0), sent, true);
    PairRefuses(a, b, sent);
    ReachedStep(sent, Deliver(1, LsuTo(a, b, TWO16)), sent.(bag := multiset{}), true);
  }

  // ---- The LSU after the last ----

  lemma SendsToBoth(b: Addr, c: Addr, lsu: Lsu)
    requires b != 0 && c != 0
    ensures Broadcast([BothNbrs(b, c)], 1, lsu, 0) == [Send(b, 0, lsu), Send(c, 0, lsu)]
  {
    var nbrs := BothNbrs(b, c).nbrs;
    assert BroadcastIface(nbrs, 0, lsu, 0) == [];
    assert BroadcastIface(nbrs, 1, lsu, 0) == [Send(b, 0, lsu)];
    assert BroadcastIface(nbrs, 2, lsu, 0) == [Send(b, 0, lsu), Send(c, 0, lsu)];
    assert Broadcast([BothNbrs(b, c)], 0, lsu, 0) == [];
  }

  function WrappedLsu(a: Addr, b: Addr, c: Addr): Lsu { Lsu(a, 0, MAX_LSU_TTL, NewLsas(b, c)) }

  /** The origin hears of a new neighbour and announces it. */
  lemma OriginHears(a: Addr, b: Addr, c: Addr)
    requires b != 0 && c != 0 && b != c
    ensures HandleHello(Origin(a, b, TWO16), 0, c, 0, 0)
         == (Router(a, 1, [BothNbrs(b, c)], []), [Send(b, 0, WrappedLsu(a, b, c)), Send(c, 0, WrappedLsu(a, b, c))])
  {
    var r := Origin(a, b, TWO16);
    assert FindNeighbour(r.ifaces[0].nbrs, c) == None;
    assert r.ifaces[0].nbrs + [Neighbour(c, 0, 0, 0)] == BothNbrs(b, c).nbrs;
    assert r.ifaces[0 := BothNbrs(b, c)] == [BothNbrs(b, c)];
    assert r.sequence == 0 && OwnLsu(r.(ifaces := [BothNbrs(b, c)])) == WrappedLsu(a, b, c);
    SendsToBoth(b, c, WrappedLsu(a, b, c));
  }

  /** The two networks differ: one advertisement for each neighbour. */
  lemma NewsIsNew(b: Addr, c: Addr)
    ensures |OldLsas(b)| == 1 && |NewLsas(b, c)| == 2
  {
    assert Advertise([OnlyNbr(b)], 0) == [] && Advertise([BothNbrs(b, c)], 0) == [];
  }

  function Messages(a: Addr, b: Addr, c: Addr): seq<Send> {
    [Send(b, 0, WrappedLsu(a, b, c)), Send(c, 0, WrappedLsu(a, b, c))]
  }

  /** The network with the last LSU in flight. */
  function Announced(a: Addr, b: Addr, c: Addr): Net {
    Net([Router(a, 1, [BothNbrs(b, c)], []), Receiver(a, b, TWO16)], multiset(Messages(a, b, c)),
        [seq(TWO16, i => OldLsas(b)) + [NewLsas(b, c)], []])
  }

  lemma Announces(a: Addr, b: Addr, c: Addr)
    requires a != b && b != 0 && c != 0 && c != a && c != b
    ensures Reached(Announced(a, b, c), false)
  {
    Rounds(a, b, TWO16);
    ReachedAnyhow(Pair(a, b, TWO16));
    OriginHears(a, b, c);
    var before, after, r := Pair(a, b, TWO16), Announced(a, b, c), Router(a, 1, [BothNbrs(b, c)], []);
    AnnouncedFields(a, b, c);
    MoveIs(before, r, Messages(a, b, c), after);
    ReachedStep(before, Hello(0, 0, c, 0, 0), after, false);
  }

  lemma AnnouncedFields(a: Addr, b: Addr, c: Addr)
    ensures var before, after := Pair(a, b, TWO16), Announced(a, b, c);
      && after.routers == before.routers[0 := Router(a, 1, [BothNbrs(b, c)], [])]
      && after.history == before.history[0 := before.history[0] + [NewLsas(b, c)]]
      && before.bag + multiset(Messages(a, b, c)) == after.bag
  {
  }

  lemma MoveIs(net: Net, r: Router, out: seq<Send>, after: Net)
    requires 0 < |net.routers| == |net.history| && r.sequence != net.routers[0].sequence
    requires after.routers == net.routers[0 := r] && after.bag == net.bag + multiset(out)
    requires after.history == net.history[0 := net.history[0] + [Advertise(r.ifaces, |r.ifaces|)]]
    ensures Move(net, 0, r, out) == after
  {
  }

  lemma OldEntryRefuses(a: Addr, b: Addr, c: Addr)
    ensures HandleLsu(Receiver(a, b, TWO16), WrappedLsu(a, b, c)) == (Receiver(a, b, TWO16), [])
    ensures Receiver(a, b, TWO16).db == [Entry(a, 65535, 0, OldLsas(b))]
  {
    assert FindEntry(Receiver(a, b, TWO16).db, a) == Some(0);
  }

  /** With one, the news is lost: after 65536 LSUs number 0 comes round, the LSU that announces the new neighbour is
      refused, and nothing of it is left in flight to the router that keeps the old entry. */
  lemma WrappedLsuIsLost(a: Addr, b: Addr, c: Addr) returns (net: Net)
    requires a != b && b != 0 && c != 0 && c != a && c != b
    ensures Reached(net, false) && |net.routers| == |net.history| == 2 && |net.history[0]| == TWO16 + 1
    ensures net.history[0][TWO16] == NewLsas(b, c) != OldLsas(b)
    ensures net.routers[1].db == [Entry(a, 65535, 0, OldLsas(b))]
    ensures forall m :: m in net.bag ==> m.to != b
  {
    Announces(a, b, c);
    NewsIsNew(b, c);
    OldEntryRefuses(a, b, c);
    var before, m, r := Announced(a, b, c), Messages(a, b, c)[0], Receiver(a, b, TWO16);
    net := before.(bag := before.bag - multiset{m});
    assert before.bag == multiset{m} + multiset{Messages(a, b, c)[1]};
    assert before.routers[1 := r] == before.routers && net.bag + multiset([]) == net.bag;
    ReachedStep(before, Deliver(1, m), net, false);
  }
}
