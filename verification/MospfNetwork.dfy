/** A network of mOSPF routers over a medium that may lose, duplicate and reorder LSUs. */
module MospfNetwork {
  import opened MachineInts
  import opened Options
  import opened MospfRouter

  /** `history[i]` records the advertisements of every LSU router `i` has originated, in order. */
  datatype Net = Net(routers: seq<Router>, bag: multiset<Send>, history: seq<seq<seq<Lsa>>>)

  datatype Event =
    | Originate(i: nat)
    | Deliver(i: nat, m: Send)
    | Duplicate(m: Send)
    | Lose(m: Send)
    | Hello(i: nat, iface: nat, id: Addr, ip: Addr, mask: Addr)
    | NeighbourTick(i: nat)
    | DatabaseTick(i: nat)

  predicate Enabled(net: Net, e: Event) {
    match e
    case Originate(i) => i < |net.routers|
    case Deliver(i, m) => i < |net.routers| && m in net.bag && net.routers[i].rid == m.to
    case Duplicate(m) => m in net.bag
    case Lose(m) => m in net.bag
    case Hello(i, iface, id, _, _) =>
      i < |net.routers| && iface < |net.routers[i].ifaces| && id != net.routers[i].rid
    case NeighbourTick(i) => i < |net.routers|
    case DatabaseTick(i) => i < |net.routers|
  }

  /** Router `i` moves to `r` and sends `out`; a new sequence number means an LSU was originated. */
  function Move(net: Net, i: nat, r: Router, out: seq<Send>): Net
    requires i < |net.routers| == |net.history|
  {
    Net(net.routers[i := r], net.bag + multiset(out),
        if r.sequence == net.routers[i].sequence then net.history
        else net.history[i := net.history[i] + [Advertise(r.ifaces, |r.ifaces|)]])
  }

  function Apply(net: Net, e: Event): Net
    requires Enabled(net, e) && |net.routers| == |net.history|
  {
    match e
    case Originate(i) => var (r, out) := SendLsu(net.routers[i]); Move(net, i, r, out)
    case Deliver(i, m) =>
      var (r, out) := HandleLsu(net.routers[i], m.lsu);
      Move(net.(bag := net.bag - multiset{m}), i, r, out)
    case Duplicate(m) => net.(bag := net.bag + multiset{m})
    case Lose(m) => net.(bag := net.bag - multiset{m})
    case Hello(i, iface, id, ip, mask) =>
      var (r, out) := HandleHello(net.routers[i], iface, id, ip, mask); Move(net, i, r, out)
    case NeighbourTick(i) => var (r, out) := CheckNeighbours(net.routers[i]); Move(net, i, r, out)
    case DatabaseTick(i) => Move(net, i, net.routers[i].(db := AgeDatabase(net.routers[i].db)), [])
  }

  /** Routers start with empty databases; router ids are distinct and nobody is its own neighbour. */
  ghost predicate Init(net: Net) {
    && |net.history| == |net.routers| && net.bag == multiset{}
    && DistinctRids(net.routers)
    && (forall i :: 0 <= i < |net.routers| ==>
          net.routers[i].db == [] && net.routers[i].sequence == 0 && net.history[i] == []
          && !IsNeighbour(net.routers[i].ifaces, net.routers[i].rid))
  }

  ghost predicate DistinctRids(routers: seq<Router>) {
    forall i, j :: 0 <= i < j < |routers| ==> routers[i].rid != routers[j].rid
  }

  predicate StepOk(states: seq<Net>, events: seq<Event>, k: nat)
    requires |states| == |events| + 1 && k < |events|
  {
    && Enabled(states[k], events[k]) && |states[k].routers| == |states[k].history|
    && states[k + 1] == Apply(states[k], events[k])
  }

  ghost predicate Run(states: seq<Net>, events: seq<Event>) {
    && |states| == |events| + 1 && Init(states[0])
    && forall k {:trigger StepOk(states, events, k)} :: 0 <= k < |events| ==> StepOk(states, events, k)
  }

  /** A run goes on with any enabled event. */
  lemma RunGrows(states: seq<Net>, events: seq<Event>, e: Event, after: Net)
    requires Run(states, events) && Enabled(states[|events|], e)
    requires |states[|events|].routers| == |states[|events|].history| && after == Apply(states[|events|], e)
    ensures Run(states + [after], events + [e])
  {
    var states', events' := states + [after], events + [e];
    forall k | 0 <= k < |events'| ensures StepOk(states', events', k) {
      if k < |events| {
        assert StepOk(states, events, k);
        assert states'[k] == states[k] && states'[k + 1] == states[k + 1] && events'[k] == events[k];
      } else {
        assert states'[k] == states[k] && states'[k + 1] == after && events'[k] == e;
      }
    }
  }

  // ---- Agreement ----

  /** The content was recorded by the origin for this sequence number. */
  ghost predicate RecordedAt(net: Net, o: nat, k: nat, rid: Addr, seqNum: u16, lsas: seq<Lsa>) {
    && o < |net.routers| == |net.history| && net.routers[o].rid == rid
    && k < |net.history[o]| && seqNum == U16(k) && lsas == net.history[o][k]
  }

  ghost predicate Recorded(net: Net, rid: Addr, seqNum: u16, lsas: seq<Lsa>) {
    exists o: nat, k: nat :: RecordedAt(net, o, k, rid, seqNum, lsas)
  }

  ghost predicate MessageOk(net: Net, m: Send) {
    m.lsu.rid != m.to && Recorded(net, m.lsu.rid, m.lsu.seqNum, m.lsu.lsas)
  }

  ghost predicate EntryOk(net: Net, rid: Addr, e: Entry) {
    e.rid != rid && Recorded(net, e.rid, e.seqNum, e.lsas)
  }

  ghost predicate UniqueOrigins(db: seq<Entry>) {
    forall j, k :: 0 <= j < k < |db| ==> db[j].rid != db[k].rid
  }

  ghost predicate DatabaseOk(net: Net, rid: Addr, db: seq<Entry>) {
    && UniqueOrigins(db)
    && (forall k {:trigger EntryOk(net, rid, db[k])} :: 0 <= k < |db| ==> EntryOk(net, rid, db[k]))
  }

  ghost predicate RouterOk(net: Net, i: nat)
    requires i < |net.routers| == |net.history|
  {
    var r := net.routers[i];
    && r.sequence == U16(|net.history[i]|)
    && !IsNeighbour(r.ifaces, r.rid)
    && DatabaseOk(net, r.rid, r.db)
  }

  ghost predicate Inv(net: Net) {
    && |net.history| == |net.routers|
    && DistinctRids(net.routers)
    && (forall i {:trigger RouterOk(net, i)} :: 0 <= i < |net.routers| ==> RouterOk(net, i))
    && (forall m {:trigger MessageOk(net, m)} :: m in net.bag ==> MessageOk(net, m))
  }

  /** Router ids stay and histories only grow. */
  ghost predicate Extends(before: Net, after: Net) {
    && |before.routers| == |after.routers| == |before.history| == |after.history|
    && forall i :: 0 <= i < |before.routers| ==>
         after.routers[i].rid == before.routers[i].rid && before.history[i] <= after.history[i]
  }

  lemma RecordedSurvives(before: Net, after: Net, rid: Addr, seqNum: u16, lsas: seq<Lsa>)
    requires Recorded(before, rid, seqNum, lsas) && Extends(before, after)
    ensures Recorded(after, rid, seqNum, lsas)
  {
    var o: nat, k: nat :| RecordedAt(before, o, k, rid, seqNum, lsas);
    assert RecordedAt(after, o, k, rid, seqNum, lsas);
  }

  lemma DatabaseSurvives(before: Net, after: Net, rid: Addr, db: seq<Entry>)
    requires DatabaseOk(before, rid, db) && Extends(before, after)
    ensures DatabaseOk(after, rid, db)
  {
    forall k | 0 <= k < |db| ensures EntryOk(after, rid, db[k]) {
      assert EntryOk(before, rid, db[k]);
      RecordedSurvives(before, after, db[k].rid, db[k].seqNum, db[k].lsas);
    }
  }

  /** Storing a recorded LSU of another router keeps one entry per origin. */
  lemma StoreKeepsDatabase(net: Net, rid: Addr, db: seq<Entry>, lsu: Lsu)
    requires DatabaseOk(net, rid, db) && lsu.rid != rid && Recorded(net, lsu.rid, lsu.seqNum, lsu.lsas)
    ensures DatabaseOk(net, rid, StoreLsu(db, lsu))
  {
    var stored := StoreLsu(db, lsu);
    forall k | 0 <= k < |stored| ensures EntryOk(net, rid, stored[k]) {
      assert k < |db| ==> EntryOk(net, rid, db[k]);
    }
  }

  lemma {:induction false} AgeDatabaseKeeps(net: Net, rid: Addr, db: seq<Entry>)
    requires DatabaseOk(net, rid, db)
    ensures DatabaseOk(net, rid, AgeDatabase(db))
    ensures forall e :: e in AgeDatabase(db) ==> exists f :: f in db && e == f.(alive := f.alive + 1)
  {
    if db != [] {
      forall k | 0 <= k < |db[1..]| ensures EntryOk(net, rid, db[1..][k]) {
        assert EntryOk(net, rid, db[k + 1]);
      }
      AgeDatabaseKeeps(net, rid, db[1..]);
      var rest, aged := AgeDatabase(db[1..]), AgeDatabase(db);
      assert EntryOk(net, rid, db[0]);
      forall k | 0 <= k < |aged|
        ensures EntryOk(net, rid, aged[k]) && exists f :: f in db && aged[k] == f.(alive := f.alive + 1)
      {
        if |aged| == |rest| || k > 0 {
          var j := if |aged| == |rest| then k else k - 1;
          assert aged[k] == rest[j] && EntryOk(net, rid, rest[j]);
          assert rest[j] in rest;
        } else {
          assert db[0] in db;
        }
      }
      forall k | 0 <= k < |rest| && |aged| > |rest| ensures rest[k].rid != db[0].rid {
        assert rest[k] in rest;
      }
    }
  }

  lemma {:induction false} AgeNeighboursKeepIds(nbrs: seq<Neighbour>, n: Neighbour)
    requires n in AgeNeighbours(nbrs)
    ensures exists k :: 0 <= k < |nbrs| && nbrs[k].id == n.id
  {
    if n in AgeNeighbours(nbrs[1..]) {
      AgeNeighboursKeepIds(nbrs[1..], n);
      var k :| 0 <= k < |nbrs[1..]| && nbrs[1..][k].id == n.id;
      assert nbrs[k + 1].id == n.id;
    } else {
      assert nbrs[0].id == n.id;
    }
  }

  lemma AgeIfacesKeepIds(ifaces: seq<Iface>, id: Addr)
    requires IsNeighbour(AgeIfaces(ifaces), id)
    ensures IsNeighbour(ifaces, id)
  {
    var aged := AgeIfaces(ifaces);
    var i, k :| 0 <= i < |aged| && 0 <= k < |aged[i].nbrs| && aged[i].nbrs[k].id == id;
    AgeNeighboursKeepIds(ifaces[i].nbrs, aged[i].nbrs[k]);
  }

  /** The messages of an own LSU are addressed to others and recorded in the new history. */
  lemma OwnLsuMessages(net: Net, i: nat, r: Router)
    requires i < |net.routers| == |net.history|
    requires r.rid == net.routers[i].rid && r.sequence == net.routers[i].sequence == U16(|net.history[i]|)
    requires !IsNeighbour(r.ifaces, r.rid)
    ensures var (t, out) := SendLsu(r);
      && t.sequence != r.sequence
      && (forall m :: m in out ==> MessageOk(Move(net, i, t, out), m))
  {
    var (t, out) := SendLsu(r);
    var after := Move(net, i, t, out);
    var lsu := OwnLsu(r);
    assert RecordedAt(after, i, |net.history[i]|, lsu.rid, lsu.seqNum, lsu.lsas);
    forall m | m in out ensures MessageOk(after, m) {
      BroadcastReaches(r.ifaces, |r.ifaces|, lsu, 0, m);
    }
  }

  /** A router moves to a good state and sends good messages. */
  lemma MoveHolds(net: Net, i: nat, r: Router, out: seq<Send>)
    requires Inv(net) && i < |net.routers| && r.rid == net.routers[i].rid
    requires r.sequence == net.routers[i].sequence || r.sequence == U16(net.routers[i].sequence + 1)
    requires !IsNeighbour(r.ifaces, r.rid)
    requires DatabaseOk(net, r.rid, r.db)
    requires forall m :: m in out ==> MessageOk(Move(net, i, r, out), m)
    ensures Inv(Move(net, i, r, out)) && Extends(net, Move(net, i, r, out))
  {
    var after := Move(net, i, r, out);
    assert Extends(net, after);
    U16Successor(|net.history[i]|);
    forall j | 0 <= j < |after.routers| ensures RouterOk(after, j) {
      assert RouterOk(net, j);
      DatabaseSurvives(net, after, after.routers[j].rid, after.routers[j].db);
    }
    forall m | m in after.bag ensures MessageOk(after, m) {
      if m in net.bag {
        assert MessageOk(net, m);
        RecordedSurvives(net, after, m.lsu.rid, m.lsu.seqNum, m.lsu.lsas);
      }
    }
  }

  lemma BagHolds(net: Net, bag: multiset<Send>)
    requires Inv(net) && forall m :: m in bag ==> m in net.bag
    ensures Inv(net.(bag := bag)) && Extends(net, net.(bag := bag))
  {
    var after := net.(bag := bag);
    assert Extends(net, after);
    forall j | 0 <= j < |after.routers| ensures RouterOk(after, j) {
      assert RouterOk(net, j);
      DatabaseSurvives(net, after, after.routers[j].rid, after.routers[j].db);
    }
    forall m | m in bag ensures MessageOk(after, m) {
      assert MessageOk(net, m);
      RecordedSurvives(net, after, m.lsu.rid, m.lsu.seqNum, m.lsu.lsas);
    }
  }

  lemma DeliverHolds(net: Net, i: nat, m: Send)
    requires Inv(net) && Enabled(net, Deliver(i, m))
    ensures Inv(Apply(net, Deliver(i, m))) && Extends(net, Apply(net, Deliver(i, m)))
  {
    var rest := net.(bag := net.bag - multiset{m});
    BagHolds(net, rest.bag);
    assert MessageOk(net, m);
    RecordedSurvives(net, rest, m.lsu.rid, m.lsu.seqNum, m.lsu.lsas);
    var r := net.routers[i];
    var (t, out) := HandleLsu(r, m.lsu);
    assert RouterOk(net, i) && RouterOk(rest, i);
    if Accepts(r, m.lsu) {
      StoreKeepsDatabase(rest, r.rid, r.db, m.lsu);
    }
    var after := Move(rest, i, t, out);
    assert Extends(rest, after);
    forall s | s in out ensures MessageOk(after, s) {
      BroadcastReaches(r.ifaces, |r.ifaces|, m.lsu.(ttl := m.lsu.ttl - 1), m.lsu.rid, s);
      RecordedSurvives(rest, after, m.lsu.rid, m.lsu.seqNum, m.lsu.lsas);
    }
    MoveHolds(rest, i, t, out);
  }

  lemma SendLsuHolds(net: Net, i: nat, r: Router)
    requires Inv(net) && i < |net.routers| && r.rid == net.routers[i].rid && r.sequence == net.routers[i].sequence
    requires !IsNeighbour(r.ifaces, r.rid) && r.db == net.routers[i].db
    ensures var (t, out) := SendLsu(r); Inv(Move(net, i, t, out)) && Extends(net, Move(net, i, t, out))
  {
    var (t, out) := SendLsu(r);
    assert RouterOk(net, i);
    OwnLsuMessages(net, i, r);
    MoveHolds(net, i, t, out);
  }

  lemma HelloKeepsOthers(ifaces: seq<Iface>, i: nat, nbrs: seq<Neighbour>, id: Addr)
    requires i < |ifaces| && !IsNeighbour(ifaces, id)
    requires forall k :: 0 <= k < |nbrs| && nbrs[k].id == id ==> k < |ifaces[i].nbrs| && ifaces[i].nbrs[k].id == id
    ensures !IsNeighbour(ifaces[i := ifaces[i].(nbrs := nbrs)], id)
  {
  }

  lemma HelloHolds(net: Net, i: nat, iface: nat, id: Addr, ip: Addr, mask: Addr)
    requires Inv(net) && Enabled(net, Hello(i, iface, id, ip, mask))
    ensures var after := Apply(net, Hello(i, iface, id, ip, mask)); Inv(after) && Extends(net, after)
  {
    var r := net.routers[i];
    assert RouterOk(net, i);
    var nbrs := r.ifaces[iface].nbrs;
    match FindNeighbour(nbrs, id)
    case Some(k) =>
      var t := HandleHello(r, iface, id, ip, mask).0;
      HelloKeepsOthers(r.ifaces, iface, t.ifaces[iface].nbrs, r.rid);
      MoveHolds(net, i, t, []);
    case None =>
      var t := r.(ifaces := r.ifaces[iface := r.ifaces[iface].(nbrs := nbrs + [Neighbour(id, ip, mask, 0)])]);
      HelloKeepsOthers(r.ifaces, iface, t.ifaces[iface].nbrs, r.rid);
      SendLsuHolds(net, i, t);
  }

  lemma DatabaseTickHolds(net: Net, i: nat)
    requires Inv(net) && i < |net.routers|
    ensures Inv(Apply(net, DatabaseTick(i))) && Extends(net, Apply(net, DatabaseTick(i)))
  {
    var r := net.routers[i];
    assert RouterOk(net, i);
    AgeDatabaseKeeps(net, r.rid, r.db);
    MoveHolds(net, i, r.(db := AgeDatabase(r.db)), []);
  }

  lemma NeighbourTickHolds(net: Net, i: nat)
    requires Inv(net) && i < |net.routers|
    ensures Inv(Apply(net, NeighbourTick(i))) && Extends(net, Apply(net, NeighbourTick(i)))
  {
    var r := net.routers[i];
    assert RouterOk(net, i);
    var aged := r.(ifaces := AgeIfaces(r.ifaces));
    if IsNeighbour(aged.ifaces, r.rid) {
      AgeIfacesKeepIds(r.ifaces, r.rid);
    }
    if NeighbourExpires(r.ifaces) {
      SendLsuHolds(net, i, aged);
    } else {
      MoveHolds(net, i, aged, []);
    }
  }

  lemma EventHolds(net: Net, e: Event)
    requires Inv(net) && Enabled(net, e)
    ensures Inv(Apply(net, e)) && Extends(net, Apply(net, e))
  {
    match e
    case Originate(i) => assert RouterOk(net, i); SendLsuHolds(net, i, net.routers[i]);
    case Deliver(i, m) => DeliverHolds(net, i, m);
    case Duplicate(m) => BagHolds(net, net.bag + multiset{m});
    case Lose(m) => BagHolds(net, net.bag - multiset{m});
    case Hello(i, iface, id, ip, mask) => HelloHolds(net, i, iface, id, ip, mask);
    case NeighbourTick(i) => NeighbourTickHolds(net, i);
    case DatabaseTick(i) => DatabaseTickHolds(net, i);
  }

  lemma InitHolds(net: Net)
    requires Init(net)
    ensures Inv(net) && Extends(net, net)
  {
    forall i | 0 <= i < |net.routers| ensures RouterOk(net, i) {}
  }

  lemma ExtendsFurther(a: Net, b: Net, c: Net)
    requires Extends(a, b) && Extends(b, c)
    ensures Extends(a, c)
  {
  }

  lemma {:induction false} RunHolds(states: seq<Net>, events: seq<Event>, a: nat, b: nat)
    requires Run(states, events) && a <= b < |states|
    ensures Inv(states[b]) && Extends(states[a], states[b])
    decreases b
  {
    if b == 0 {
      InitHolds(states[0]);
    } else {
      RunHolds(states, events, if a < b then a else b - 1, b - 1);
      assert StepOk(states, events, b - 1);
      EventHolds(states[b - 1], events[b - 1]);
      if a < b {
        ExtendsFurther(states[a], states[b - 1], states[b]);
      }
    }
  }

  /** Database agreement: over every run, everything stored or in flight for (origin, seq) is exactly
      what the origin recorded for that number, as long as no router has used a number twice;
      databases hold one entry per origin and never the router's own. */
  lemma DatabasesAgree(states: seq<Net>, events: seq<Event>, t: nat)
    requires Run(states, events) && t < |states|
    requires forall o :: 0 <= o < |states[t].history| ==> |states[t].history[o]| <= TWO16
    ensures var net := states[t];
      && |net.history| == |net.routers|
      && (forall i, k, o :: 0 <= i < |net.routers| && 0 <= k < |net.routers[i].db| && 0 <= o < |net.routers|
                            && net.routers[o].rid == net.routers[i].db[k].rid ==>
            o != i && net.routers[i].db[k].seqNum < |net.history[o]|
            && net.routers[i].db[k].lsas == net.history[o][net.routers[i].db[k].seqNum])
      && (forall i, k :: 0 <= i < |net.routers| && 0 <= k < |net.routers[i].db| ==>
            exists o :: 0 <= o < |net.routers| && net.routers[o].rid == net.routers[i].db[k].rid)
      && (forall i :: 0 <= i < |net.routers| ==> UniqueOrigins(net.routers[i].db))
      && (forall m, o :: m in net.bag && 0 <= o < |net.routers| && net.routers[o].rid == m.lsu.rid ==>
            m.lsu.seqNum < |net.history[o]| && m.lsu.lsas == net.history[o][m.lsu.seqNum])
  {
    RunHolds(states, events, t, t);
    var net := states[t];
    forall i, k | 0 <= i < |net.routers| && 0 <= k < |net.routers[i].db|
      ensures EntryOk(net, net.routers[i].rid, net.routers[i].db[k])
    {
      assert RouterOk(net, i);
    }
    forall i, k, o | 0 <= i < |net.routers| && 0 <= k < |net.routers[i].db| && 0 <= o < |net.routers|
                     && net.routers[o].rid == net.routers[i].db[k].rid
      ensures o != i && net.routers[i].db[k].seqNum < |net.history[o]|
        && net.routers[i].db[k].lsas == net.history[o][net.routers[i].db[k].seqNum]
    {
      assert EntryOk(net, net.routers[i].rid, net.routers[i].db[k]);
      RecordedContent(net, o, net.routers[i].db[k].seqNum, net.routers[i].db[k].lsas);
    }
    forall i, k | 0 <= i < |net.routers| && 0 <= k < |net.routers[i].db|
      ensures exists o :: 0 <= o < |net.routers| && net.routers[o].rid == net.routers[i].db[k].rid
    {
      var e := net.routers[i].db[k];
      assert EntryOk(net, net.routers[i].rid, e);
      var o: nat, n: nat :| RecordedAt(net, o, n, e.rid, e.seqNum, e.lsas);
      assert net.routers[o].rid == e.rid;
    }
    forall i | 0 <= i < |net.routers| ensures UniqueOrigins(net.routers[i].db) {
      assert RouterOk(net, i);
    }
    forall m, o | m in net.bag && 0 <= o < |net.routers| && net.routers[o].rid == m.lsu.rid
      ensures m.lsu.seqNum < |net.history[o]| && m.lsu.lsas == net.history[o][m.lsu.seqNum]
    {
      assert MessageOk(net, m);
      RecordedContent(net, o, m.lsu.seqNum, m.lsu.lsas);
    }
  }

  /** Below 65536 LSUs a sequence number identifies one of them. */
  lemma RecordedContent(net: Net, o: nat, seqNum: u16, lsas: seq<Lsa>)
    requires o < |net.routers| == |net.history| && DistinctRids(net.routers)
    requires Recorded(net, net.routers[o].rid, seqNum, lsas) && |net.history[o]| <= TWO16
    ensures seqNum < |net.history[o]| && lsas == net.history[o][seqNum]
  {
    var p: nat, k: nat :| RecordedAt(net, p, k, net.routers[o].rid, seqNum, lsas);
    assert p == o;
  }

  predicate EntryAdvances(before: Entry, after: Entry) {
    before.seqNum < after.seqNum || (before.seqNum == after.seqNum && before.lsas == after.lsas)
  }

  lemma StoreAdvances(r: Router, lsu: Lsu, j: nat, k: nat)
    requires UniqueOrigins(r.db) && Accepts(r, lsu)
    requires j < |r.db| && k < |StoreLsu(r.db, lsu)| && StoreLsu(r.db, lsu)[k].rid == r.db[j].rid
    ensures EntryAdvances(r.db[j], StoreLsu(r.db, lsu)[k])
  {
    var f := FindEntry(r.db, lsu.rid);
    if f == None {
      assert StoreLsu(r.db, lsu) == r.db + [Entry(lsu.rid, lsu.seqNum, 0, lsu.lsas)];
      assert k < |r.db| ==> j == k;
    } else {
      assert j == k;
    }
  }

  lemma AgeAdvances(net: Net, rid: Addr, db: seq<Entry>, j: nat, k: nat)
    requires DatabaseOk(net, rid, db)
    requires j < |db| && k < |AgeDatabase(db)| && AgeDatabase(db)[k].rid == db[j].rid
    ensures EntryAdvances(db[j], AgeDatabase(db)[k])
  {
    AgeDatabaseKeeps(net, rid, db);
    assert AgeDatabase(db)[k] in AgeDatabase(db);
    var f :| f in db && AgeDatabase(db)[k] == f.(alive := f.alive + 1);
    assert f == db[j];
  }

  /** What an event does to the database of router `i`. */
  lemma DatabaseAfter(net: Net, e: Event, i: nat)
    requires |net.routers| == |net.history| && Enabled(net, e) && i < |net.routers|
    ensures Apply(net, e).routers[i].db ==
      if e == DatabaseTick(i) then AgeDatabase(net.routers[i].db)
      else if e.Deliver? && e.i == i && Accepts(net.routers[i], e.m.lsu) then StoreLsu(net.routers[i].db, e.m.lsu)
      else net.routers[i].db
  {
  }

  /** While an origin's entry lives, no event lowers its sequence number, and an event that leaves
      the number alone leaves the content alone. */
  lemma EntriesOnlyAdvance(net: Net, e: Event, i: nat, j: nat, k: nat)
    requires Inv(net) && Enabled(net, e) && i < |net.routers|
    requires j < |net.routers[i].db| && k < |Apply(net, e).routers[i].db|
    requires Apply(net, e).routers[i].db[k].rid == net.routers[i].db[j].rid
    ensures EntryAdvances(net.routers[i].db[j], Apply(net, e).routers[i].db[k])
  {
    DatabaseAfter(net, e, i);
    assert RouterOk(net, i);
    if e == DatabaseTick(i) {
      AgeAdvances(net, net.routers[i].rid, net.routers[i].db, j, k);
    } else if e.Deliver? && e.i == i && Accepts(net.routers[i], e.m.lsu) {
      StoreAdvances(net.routers[i], e.m.lsu, j, k);
    }
  }
}
