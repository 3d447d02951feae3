/** Neighbours: how long one lives, where its address comes from, and when a change is announced
    (07-mospf/mospf_daemon.c). */
module MospfHello {
  import opened MachineInts
  import opened Options
  import opened MospfRouter
  import opened MospfNetwork

  predicate Knows(nbrs: seq<Neighbour>, id: Addr) { exists k :: 0 <= k < |nbrs| && nbrs[k].id == id }

  /** The neighbour was heard `n` ticks ago, and no entry of it is younger. */
  predicate Heard(nbrs: seq<Neighbour>, id: Addr, n: nat) {
    && (exists k :: 0 <= k < |nbrs| && nbrs[k].id == id && nbrs[k].alive == n)
    && forall k :: 0 <= k < |nbrs| && nbrs[k].id == id ==> nbrs[k].alive >= n
  }

  /** What a hello does to the list of its interface: a known neighbour is young again and nothing else changes, an
      unknown one is added with the address and the mask of the hello. */
  lemma HelloIsExact(r: Router, f: nat, id: Addr, ip: Addr, mask: Addr)
    requires f < |r.ifaces|
    ensures var before, t := r.ifaces[f].nbrs, HandleHello(r, f, id, ip, mask).0;
      && |t.ifaces| == |r.ifaces| && t.db == r.db && t.rid == r.rid
      && (forall g :: 0 <= g < |r.ifaces| && g != f ==> t.ifaces[g] == r.ifaces[g])
      && t.ifaces[f].ip == r.ifaces[f].ip && t.ifaces[f].mask == r.ifaces[f].mask
      && var after := t.ifaces[f].nbrs;
        if Knows(before, id) then
          && |after| == |before| && Heard(after, id, 0)
          && (forall k :: 0 <= k < |before| && before[k].id != id ==> after[k] == before[k])
          && (forall k :: 0 <= k < |before| ==> after[k].(alive := before[k].alive) == before[k])
        else after == before + [Neighbour(id, ip, mask, 0)]
  {
    var before, after := r.ifaces[f].nbrs, HandleHello(r, f, id, ip, mask).0.ifaces[f].nbrs;
    if Knows(before, id) {
      var k := FindNeighbour(before, id).value;
      assert after[k].id == id && after[k].alive == 0;
    }
  }

  lemma HelloIsHeard(r: Router, f: nat, id: Addr, ip: Addr, mask: Addr)
    requires f < |r.ifaces|
    ensures f < |HandleHello(r, f, id, ip, mask).0.ifaces|
    ensures Heard(HandleHello(r, f, id, ip, mask).0.ifaces[f].nbrs, id, 0)
  {
    HelloIsExact(r, f, id, ip, mask);
    var after := HandleHello(r, f, id, ip, mask).0.ifaces[f].nbrs;
    if !Knows(r.ifaces[f].nbrs, id) {
      assert after[|r.ifaces[f].nbrs|].id == id;
    }
  }

  lemma HelloLeavesOthers(r: Router, f: nat, id: Addr, ip: Addr, mask: Addr, other: Addr, n: nat)
    requires f < |r.ifaces| && id != other
    ensures f < |HandleHello(r, f, id, ip, mask).0.ifaces|
    ensures var before, after := r.ifaces[f].nbrs, HandleHello(r, f, id, ip, mask).0.ifaces[f].nbrs;
      (Heard(before, other, n) ==> Heard(after, other, n)) && (!Knows(before, other) ==> !Knows(after, other))
  {
    HelloIsExact(r, f, id, ip, mask);
    var before, after := r.ifaces[f].nbrs, HandleHello(r, f, id, ip, mask).0.ifaces[f].nbrs;
    if Heard(before, other, n) {
      var k :| 0 <= k < |before| && before[k].id == other && before[k].alive == n;
      assert after[k] == before[k];
      forall j | 0 <= j < |after| && after[j].id == other ensures after[j].alive >= n {
        assert j < |before| && after[j] == before[j];
      }
    }
    if !Knows(before, other) {
      forall j | 0 <= j < |after| ensures after[j].id != other {
        assert j < |before| ==> before[j].id != other && after[j].id == before[j].id;
      }
    }
  }

  // ---- The life of a neighbour ----

  /** Where the members of an aged list come from. */
  lemma {:induction false} AgedFrom(nbrs: seq<Neighbour>, x: Neighbour)
    ensures x in AgeNeighbours(nbrs) <==>
      exists k :: 0 <= k < |nbrs| && nbrs[k].alive < 15 && x == nbrs[k].(alive := nbrs[k].alive + 1)
  {
    if nbrs != [] {
      var rest := AgeNeighbours(nbrs[1..]);
      AgedFrom(nbrs[1..], x);
      assert x in AgeNeighbours(nbrs) <==>
        x in rest || (nbrs[0].alive < 15 && x == nbrs[0].(alive := nbrs[0].alive + 1));
      if k :| 0 <= k < |nbrs| && nbrs[k].alive < 15 && x == nbrs[k].(alive := nbrs[k].alive + 1) {
        assert k > 0 ==> nbrs[1..][k - 1] == nbrs[k];
      }
      if k :| 0 <= k < |nbrs[1..]| && nbrs[1..][k].alive < 15 && x == nbrs[1..][k].(alive := nbrs[1..][k].alive + 1) {
        assert nbrs[k + 1] == nbrs[1..][k];
      }
    }
  }

  lemma HeardAges(nbrs: seq<Neighbour>, id: Addr, n: nat)
    requires Heard(nbrs, id, n)
    ensures n < 15 ==> Heard(AgeNeighbours(nbrs), id, n + 1)
    ensures n >= 15 ==> !Knows(AgeNeighbours(nbrs), id)
  {
    var aged := AgeNeighbours(nbrs);
    forall j | 0 <= j < |aged| && aged[j].id == id ensures n < 15 && aged[j].alive >= n + 1 {
      AgedFrom(nbrs, aged[j]);
    }
    if n < 15 {
      var k :| 0 <= k < |nbrs| && nbrs[k].id == id && nbrs[k].alive == n;
      var x := nbrs[k].(alive := n + 1);
      AgedFrom(nbrs, x);
      var j :| 0 <= j < |aged| && aged[j] == x;
    }
  }

  lemma UnknownAges(nbrs: seq<Neighbour>, id: Addr)
    requires !Knows(nbrs, id)
    ensures !Knows(AgeNeighbours(nbrs), id)
  {
    var aged := AgeNeighbours(nbrs);
    forall j | 0 <= j < |aged| ensures aged[j].id != id {
      AgedFrom(nbrs, aged[j]);
    }
  }

  predicate HelloFrom(e: Event, i: nat, f: nat, id: Addr) {
    e.Hello? && e.i == i && e.iface == f && e.id == id
  }

  function NeighbourTicks(events: seq<Event>, i: nat, a: nat, b: nat): nat
    requires a <= b <= |events|
  {
    if a == b then 0 else NeighbourTicks(events, i, a, b - 1) + if events[b - 1] == NeighbourTick(i) then 1 else 0
  }

  predicate NeighbourAged(net: Net, i: nat, f: nat, id: Addr, n: nat) {
    && i < |net.routers| && f < |net.routers[i].ifaces|
    && ListAged(net.routers[i].ifaces[f].nbrs, id, n)
  }

  /** The list after an event: only hellos on the interface and the router's own check change it. */
  function ListAfter(r: Router, e: Event, i: nat, f: nat): seq<Neighbour>
    requires f < |r.ifaces|
  {
    if e == NeighbourTick(i) then AgeNeighbours(r.ifaces[f].nbrs)
    else if e.Hello? && e.i == i && e.iface == f then HandleHello(r, f, e.id, e.ip, e.mask).0.ifaces[f].nbrs
    else r.ifaces[f].nbrs
  }

  lemma ListChanges(net: Net, e: Event, i: nat, f: nat)
    requires Enabled(net, e) && |net.routers| == |net.history| && i < |net.routers| && f < |net.routers[i].ifaces|
    ensures i < |Apply(net, e).routers| && f < |Apply(net, e).routers[i].ifaces|
    ensures Apply(net, e).routers[i].ifaces[f].nbrs == ListAfter(net.routers[i], e, i, f)
  {
  }

  predicate ListAged(nbrs: seq<Neighbour>, id: Addr, n: nat) {
    if n <= 15 then Heard(nbrs, id, n) else !Knows(nbrs, id)
  }

  lemma ListStep(r: Router, e: Event, i: nat, f: nat, id: Addr, n: nat)
    requires f < |r.ifaces| && ListAged(r.ifaces[f].nbrs, id, n) && !HelloFrom(e, i, f, id)
    ensures ListAged(ListAfter(r, e, i, f), id, n + if e == NeighbourTick(i) then 1 else 0)
  {
    var nbrs := r.ifaces[f].nbrs;
    if e == NeighbourTick(i) {
      if n <= 15 {
        HeardAges(nbrs, id, n);
      } else {
        UnknownAges(nbrs, id);
      }
    } else if e.Hello? && e.i == i && e.iface == f {
      HelloLeavesOthers(r, f, e.id, e.ip, e.mask, id, n);
    }
  }

  lemma NeighbourStep(net: Net, e: Event, i: nat, f: nat, id: Addr, n: nat)
    requires Enabled(net, e) && |net.routers| == |net.history| && NeighbourAged(net, i, f, id, n)
    requires !HelloFrom(e, i, f, id)
    ensures NeighbourAged(Apply(net, e), i, f, id, n + if e == NeighbourTick(i) then 1 else 0)
  {
    ListStep(net.routers[i], e, i, f, id, n);
    ListChanges(net, e, i, f);
  }

  lemma NeighbourStarts(states: seq<Net>, events: seq<Event>, k: nat, i: nat, f: nat, id: Addr)
    requires Run(states, events) && k < |events| && HelloFrom(events[k], i, f, id)
    ensures NeighbourAged(states[k + 1], i, f, id, 0)
  {
    assert StepOk(states, events, k);
    HelloIsHeard(states[k].routers[i], f, id, events[k].ip, events[k].mask);
    ListChanges(states[k], events[k], i, f);
  }

  lemma NeighbourNext(states: seq<Net>, events: seq<Event>, k: nat, i: nat, f: nat, id: Addr, n: nat)
    requires Run(states, events) && k < |events| && NeighbourAged(states[k], i, f, id, n)
    requires !HelloFrom(events[k], i, f, id)
    ensures NeighbourAged(states[k + 1], i, f, id, n + if events[k] == NeighbourTick(i) then 1 else 0)
  {
    assert StepOk(states, events, k);
    NeighbourStep(states[k], events[k], i, f, id, n);
  }

  lemma {:induction false} NeighbourAges(states: seq<Net>, events: seq<Event>, a: nat, b: nat, i: nat, f: nat, id: Addr)
    requires Run(states, events) && a < b < |states| && HelloFrom(events[a], i, f, id)
    requires forall k {:trigger HelloFrom(events[k], i, f, id)} :: a < k < b ==> !HelloFrom(events[k], i, f, id)
    ensures NeighbourAged(states[b], i, f, id, NeighbourTicks(events, i, a + 1, b))
  {
    if b == a + 1 {
      NeighbourStarts(states, events, a, i, f, id);
    } else {
      NeighbourAges(states, events, a, b - 1, i, f, id);
      assert !HelloFrom(events[b - 1], i, f, id);
      NeighbourNext(states, events, b - 1, i, f, id, NeighbourTicks(events, i, a + 1, b - 1));
    }
  }

  /** The life of a neighbour: it is known exactly as long as at most 15 ticks, three hello intervals, have passed since
      its last hello on the interface. */
  lemma NeighbourLives(states: seq<Net>, events: seq<Event>, a: nat, b: nat, i: nat, f: nat, id: Addr)
    requires Run(states, events) && a < b < |states| && HelloFrom(events[a], i, f, id)
    requires forall k {:trigger HelloFrom(events[k], i, f, id)} :: a < k < b ==> !HelloFrom(events[k], i, f, id)
    ensures i < |states[b].routers| && f < |states[b].routers[i].ifaces|
    ensures Knows(states[b].routers[i].ifaces[f].nbrs, id) <==> NeighbourTicks(events, i, a + 1, b) <= 15
  {
    NeighbourAges(states, events, a, b, i, f, id);
  }

  // ---- Where its address comes from ----

  /** The neighbour was known from the start, or some hello before event `b` brought this address and mask. */
  ghost predicate Introduced(states: seq<Net>, events: seq<Event>, b: nat, i: nat, f: nat, x: Neighbour)
    requires b <= |events| < |states|
  {
    || (i < |states[0].routers| && f < |states[0].routers[i].ifaces|
        && exists y :: y in states[0].routers[i].ifaces[f].nbrs && y.(alive := x.alive) == x)
    || Hello(i, f, x.id, x.ip, x.mask) in events[..b]
  }

  lemma IntroducedBefore(r: Router, e: Event, i: nat, f: nat, x: Neighbour) returns (y: Neighbour)
    requires f < |r.ifaces| && x in ListAfter(r, e, i, f) && e != Hello(i, f, x.id, x.ip, x.mask)
    ensures y in r.ifaces[f].nbrs && y.(alive := x.alive) == x
  {
    var before, after := r.ifaces[f].nbrs, ListAfter(r, e, i, f);
    if e == NeighbourTick(i) {
      AgedFrom(before, x);
      var k :| 0 <= k < |before| && before[k].alive < 15 && x == before[k].(alive := before[k].alive + 1);
      y := before[k];
    } else if e.Hello? && e.i == i && e.iface == f {
      HelloIsExact(r, f, e.id, e.ip, e.mask);
      var k :| 0 <= k < |after| && after[k] == x;
      assert k < |before|;
      y := before[k];
    } else {
      y := x;
    }
  }

  lemma IfacesStay(net: Net, e: Event, i: nat)
    requires Enabled(net, e) && |net.routers| == |net.history| && i < |net.routers|
    ensures |Apply(net, e).routers| == |net.routers|
    ensures |Apply(net, e).routers[i].ifaces| == |net.routers[i].ifaces|
  {
  }

  lemma {:induction false} NeighbourIsIntroduced(states: seq<Net>, events: seq<Event>, b: nat, i: nat, f: nat,
                                                 x: Neighbour)
    requires Run(states, events) && b < |states| && i < |states[b].routers| && f < |states[b].routers[i].ifaces|
    requires x in states[b].routers[i].ifaces[f].nbrs
    ensures Introduced(states, events, b, i, f, x)
  {
    if b > 0 {
      assert StepOk(states, events, b - 1);
      var net, e := states[b - 1], events[b - 1];
      assert events[..b] == events[..b - 1] + [e];
      if e != Hello(i, f, x.id, x.ip, x.mask) {
        assert i < |net.routers|;
        IfacesStay(net, e, i);
        ListChanges(net, e, i, f);
        var y := IntroducedBefore(net.routers[i], e, i, f, x);
        NeighbourIsIntroduced(states, events, b - 1, i, f, y);
      }
    }
  }

  // ---- Announcements ----

  /** The event makes router `d` announce itself. */
  predicate Announces(net: Net, e: Event, d: nat)
    requires Enabled(net, e) && d < |net.routers|
  {
    || e == Originate(d)
    || (e.Hello? && e.i == d && !Knows(net.routers[d].ifaces[e.iface].nbrs, e.id))
    || (e == NeighbourTick(d) && SomeoneSilent(net.routers[d].ifaces))
  }

  /** A neighbour has not been heard for 15 ticks. */
  predicate SilentOn(nbrs: seq<Neighbour>) { exists k :: 0 <= k < |nbrs| && nbrs[k].alive >= 15 }

  predicate SomeoneSilent(ifaces: seq<Iface>) {
    exists f {:trigger SilentOn(ifaces[f].nbrs)} :: 0 <= f < |ifaces| && SilentOn(ifaces[f].nbrs)
  }

  lemma MoveAnnounces(net: Net, i: nat, r: Router, out: seq<Send>, d: nat)
    requires i < |net.routers| == |net.history| && d < |net.routers|
    ensures var after := Move(net, i, r, out);
      && |after.routers| == |after.history| == |net.routers|
      && after.routers[d] == (if d == i then r else net.routers[d])
      && after.history[d] == net.history[d]
        + if d == i && r.sequence != net.routers[i].sequence then [Advertise(r.ifaces, |r.ifaces|)] else []
  {
  }

  /** Router `d` stands at `r` after the event, and says so if it has announced itself. */
  ghost predicate MovesTo(net: Net, after: Net, d: nat, r: Router, announced: bool)
    requires d < |net.routers| == |net.history|
  {
    && |after.routers| == |after.history| == |net.routers| && after.routers[d] == r
    && after.history[d] == net.history[d] + if announced then [Advertise(r.ifaces, |r.ifaces|)] else []
  }

  lemma MoveMoves(net: Net, i: nat, t: Router, out: seq<Send>, d: nat, announced: bool)
    requires i < |net.routers| == |net.history| && d < |net.routers|
    requires t.sequence == if announced then U16(net.routers[i].sequence + 1) else net.routers[i].sequence
    ensures MovesTo(net, Move(net, i, t, out), d, if d == i then t else net.routers[d], d == i && announced)
  {
    MoveAnnounces(net, i, t, out, d);
    assert U16(net.routers[i].sequence + 1) != net.routers[i].sequence;
  }

  /** What a router sends when it announces itself: its own LSU to every neighbour. */
  function Announcement(before: Router, after: Router): seq<Send> {
    Broadcast(after.ifaces, |after.ifaces|,
              Lsu(after.rid, before.sequence, 255, Advertise(after.ifaces, |after.ifaces|)), 0)
  }

  lemma HelloAnnounces(r: Router, f: nat, id: Addr, ip: Addr, mask: Addr)
    requires f < |r.ifaces|
    ensures var (t, out) := HandleHello(r, f, id, ip, mask);
      && t.sequence == (if Knows(r.ifaces[f].nbrs, id) then r.sequence else U16(r.sequence + 1))
      && out == if Knows(r.ifaces[f].nbrs, id) then [] else Announcement(r, t)
  {
    KnowsIsFound(r.ifaces[f].nbrs, id);
    if FindNeighbour(r.ifaces[f].nbrs, id) == None {
      SendAnnounces(r.(ifaces := r.ifaces[f := r.ifaces[f].(nbrs := r.ifaces[f].nbrs + [Neighbour(id, ip, mask, 0)])]));
    }
  }

  lemma KnowsIsFound(nbrs: seq<Neighbour>, id: Addr)
    ensures Knows(nbrs, id) <==> FindNeighbour(nbrs, id).Some?
  {
  }

  lemma SendAnnounces(r: Router)
    ensures SendLsu(r) == (r.(sequence := U16(r.sequence + 1)), Announcement(r, r))
  {
  }

  lemma CheckAnnounces(r: Router)
    ensures var (t, out) := CheckNeighbours(r);
      && t.sequence == (if SomeoneSilent(r.ifaces) then U16(r.sequence + 1) else r.sequence)
      && out == if SomeoneSilent(r.ifaces) then Announcement(r, t) else []
  {
    TickAnnounces(r);
  }

  lemma OriginateMoves(net: Net, i: nat, d: nat)
    requires i < |net.routers| == |net.history| && d < |net.routers|
    ensures MovesTo(net, Apply(net, Originate(i)), d,
                    if d == i then SendLsu(net.routers[i]).0 else net.routers[d], d == i)
  {
    MoveMoves(net, i, SendLsu(net.routers[i]).0, SendLsu(net.routers[i]).1, d, true);
  }

  lemma DeliveryMoves(net: Net, i: nat, m: Send, d: nat)
    requires Enabled(net, Deliver(i, m)) && |net.routers| == |net.history| && d < |net.routers|
    ensures MovesTo(net, Apply(net, Deliver(i, m)), d,
                    if d == i then HandleLsu(net.routers[i], m.lsu).0 else net.routers[d], false)
  {
    var (t, out) := HandleLsu(net.routers[i], m.lsu);
    MoveMoves(net.(bag := net.bag - multiset{m}), i, t, out, d, false);
  }

  lemma RouterMoves(net: Net, e: Event, d: nat) returns (r: Router)
    requires Enabled(net, e) && |net.routers| == |net.history| && d < |net.routers|
    ensures MovesTo(net, Apply(net, e), d, r, Announces(net, e, d))
  {
    match e
    case Originate(i) =>
      OriginateMoves(net, i, d);
      r := if d == i then SendLsu(net.routers[i]).0 else net.routers[d];
    case Deliver(i, m) =>
      DeliveryMoves(net, i, m, d);
      r := if d == i then HandleLsu(net.routers[i], m.lsu).0 else net.routers[d];
    case Hello(i, f, id, ip, mask) =>
      var announced;
      r, announced := HelloMoves(net, i, f, id, ip, mask, d);
    case NeighbourTick(i) =>
      var announced;
      r, announced := CheckCase(net, Apply(net, e), i, d);
    case DatabaseTick(i) =>
      var t := net.routers[i].(db := AgeDatabase(net.routers[i].db));
      MoveMoves(net, i, t, [], d, false);
      r := if d == i then t else net.routers[d];
    case Duplicate(_) => r := net.routers[d];
    case Lose(_) => r := net.routers[d];
  }

  lemma HelloApplies(net: Net, i: nat, f: nat, id: Addr, ip: Addr, mask: Addr)
    requires Enabled(net, Hello(i, f, id, ip, mask)) && |net.routers| == |net.history|
    ensures var (t, out) := HandleHello(net.routers[i], f, id, ip, mask);
      Apply(net, Hello(i, f, id, ip, mask)) == Move(net, i, t, out)
  {
  }

  lemma HelloSequence(r: Router, f: nat, id: Addr, ip: Addr, mask: Addr)
      returns (t: Router, out: seq<Send>, announced: bool)
    requires f < |r.ifaces|
    ensures HandleHello(r, f, id, ip, mask) == (t, out) && announced == !Knows(r.ifaces[f].nbrs, id)
    ensures t.sequence == if announced then U16(r.sequence + 1) else r.sequence
  {
    HelloAnnounces(r, f, id, ip, mask);
    t, out := HandleHello(r, f, id, ip, mask).0, HandleHello(r, f, id, ip, mask).1;
    announced := !Knows(r.ifaces[f].nbrs, id);
  }

  lemma HelloMoves(net: Net, i: nat, f: nat, id: Addr, ip: Addr, mask: Addr, d: nat)
      returns (r: Router, announced: bool)
    requires Enabled(net, Hello(i, f, id, ip, mask)) && |net.routers| == |net.history| && d < |net.routers|
    ensures announced == !Knows(net.routers[i].ifaces[f].nbrs, id)
    ensures MovesTo(net, Apply(net, Hello(i, f, id, ip, mask)), d, r, d == i && announced)
  {
    var t, out, said := HelloSequence(net.routers[i], f, id, ip, mask);
    announced := said;
    HelloApplies(net, i, f, id, ip, mask);
    MoveMoves(net, i, t, out, d, announced);
    r := if d == i then t else net.routers[d];
  }

  lemma CheckApplies(net: Net, i: nat)
    requires i < |net.routers| == |net.history|
    ensures var (t, out) := CheckNeighbours(net.routers[i]); Apply(net, NeighbourTick(i)) == Move(net, i, t, out)
  {
  }

  lemma CheckSequence(r: Router) returns (t: Router, out: seq<Send>, announced: bool)
    ensures CheckNeighbours(r) == (t, out) && announced == SomeoneSilent(r.ifaces)
    ensures t.sequence == if announced then U16(r.sequence + 1) else r.sequence
  {
    CheckAnnounces(r);
    t, out, announced := CheckNeighbours(r).0, CheckNeighbours(r).1, SomeoneSilent(r.ifaces);
  }

  /** What a check leads to, from what it does to the router and what it sends. */
  lemma CheckMoves(net: Net, after: Net, i: nat, d: nat, t: Router, out: seq<Send>, announced: bool)
    requires i < |net.routers| == |net.history| && d < |net.routers| && after == Move(net, i, t, out)
    requires t.sequence == if announced then U16(net.routers[i].sequence + 1) else net.routers[i].sequence
    ensures MovesTo(net, after, d, if d == i then t else net.routers[d], d == i && announced)
  {
    MoveMoves(net, i, t, out, d, announced);
  }

  lemma CheckCase(net: Net, after: Net, i: nat, d: nat) returns (r: Router, announced: bool)
    requires i < |net.routers| == |net.history| && d < |net.routers| && after == Apply(net, NeighbourTick(i))
    ensures announced == SomeoneSilent(net.routers[i].ifaces) && MovesTo(net, after, d, r, d == i && announced)
  {
    var t, out, said := CheckSequence(net.routers[i]);
    announced := said;
    CheckApplies(net, i);
    CheckMoves(net, after, i, d, t, out, announced);
    r := if d == i then t else net.routers[d];
  }

  /** A router announces itself periodically, when it hears of a new neighbour and when one falls silent, and never
      otherwise; the announcement describes the neighbours as they are after the event. */
  lemma AnnouncesExactly(net: Net, e: Event, d: nat)
    requires Enabled(net, e) && |net.routers| == |net.history| && d < |net.routers|
    ensures var after := Apply(net, e);
      && |after.routers| == |after.history| == |net.routers|
      && after.history[d] == net.history[d]
        + if Announces(net, e, d) then [Advertise(after.routers[d].ifaces, |after.routers[d].ifaces|)] else []
  {
    var r := RouterMoves(net, e, d);
  }

  lemma TickAnnounces(r: Router)
    ensures NeighbourExpires(r.ifaces) <==> SomeoneSilent(r.ifaces)
  {
    if NeighbourExpires(r.ifaces) {
      var f :| 0 <= f < |r.ifaces| && HasExpired(r.ifaces[f].nbrs);
      assert SilentOn(r.ifaces[f].nbrs);
    }
    if SomeoneSilent(r.ifaces) {
      var f :| 0 <= f < |r.ifaces| && SilentOn(r.ifaces[f].nbrs);
      assert HasExpired(r.ifaces[f].nbrs);
    }
  }

  lemma AnnouncementIsSent(net: Net, e: Event, d: nat, s: Send)
    requires Enabled(net, e) && |net.routers| == |net.history| && d < |net.routers| && Announces(net, e, d)
    requires d < |Apply(net, e).routers| && s in Announcement(net.routers[d], Apply(net, e).routers[d])
    ensures s in Apply(net, e).bag
  {
    match e
    case Hello(i, f, id, ip, mask) => HelloAnnounces(net.routers[i], f, id, ip, mask);
    case NeighbourTick(i) => CheckAnnounces(net.routers[i]);
    case _ =>
  }

  /** The announcement goes to every neighbour, with the number of the router before the event and full TTL. */
  lemma AnnouncementGoesOut(net: Net, e: Event, d: nat, f: nat, k: nat)
    requires Enabled(net, e) && |net.routers| == |net.history| && d < |net.routers| && Announces(net, e, d)
    requires d < |Apply(net, e).routers| && f < |Apply(net, e).routers[d].ifaces|
    requires k < |Apply(net, e).routers[d].ifaces[f].nbrs| && Apply(net, e).routers[d].ifaces[f].nbrs[k].id != 0
    ensures var after := Apply(net, e); var x := after.routers[d].ifaces[f].nbrs[k];
      Send(x.id, x.ip, Lsu(after.routers[d].rid, net.routers[d].sequence, 255,
                           Advertise(after.routers[d].ifaces, |after.routers[d].ifaces|))) in after.bag
  {
    var r := Apply(net, e).routers[d];
    var x := r.ifaces[f].nbrs[k];
    var lsu := Lsu(r.rid, net.routers[d].sequence, 255, Advertise(r.ifaces, |r.ifaces|));
    BroadcastReaches(r.ifaces, |r.ifaces|, lsu, 0, Send(x.id, x.ip, lsu));
    AnnouncementIsSent(net, e, d, Send(x.id, x.ip, lsu));
  }

  predicate AdvertisedBy(iface: Iface, l: Lsa) {
    || (iface.nbrs == [] && l == Lsa(iface.ip & iface.mask, iface.mask, 0))
    || exists nbr :: nbr in iface.nbrs && l == Lsa(nbr.ip & nbr.mask, nbr.mask, nbr.id)
  }

  lemma IfaceAdvertises(iface: Iface, l: Lsa)
    ensures l in AdvertiseIface(iface) <==> AdvertisedBy(iface, l)
  {
    var all := AdvertiseIface(iface);
    if nbr :| nbr in iface.nbrs && l == Lsa(nbr.ip & nbr.mask, nbr.mask, nbr.id) {
      var k :| 0 <= k < |iface.nbrs| && iface.nbrs[k] == nbr;
      assert all[k] == l;
    }
  }

  /** What is announced: the network of each neighbour under its router id, and that of each interface without
      neighbours under id 0. */
  lemma {:induction false} AdvertisesExactly(ifaces: seq<Iface>, n: nat, l: Lsa)
    requires n <= |ifaces|
    ensures l in Advertise(ifaces, n) <==>
      exists f {:trigger AdvertisedBy(ifaces[f], l)} :: 0 <= f < n && AdvertisedBy(ifaces[f], l)
  {
    if n > 0 {
      AdvertisesExactly(ifaces, n - 1, l);
      IfaceAdvertises(ifaces[n - 1], l);
    }
  }
}
