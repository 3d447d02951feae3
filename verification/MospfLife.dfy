/** How long a database entry and a neighbour live, over runs with ageing, loss and changes of neighbours
    (07-mospf/mospf_daemon.c). */
module MospfLife {
  import opened Options
  import opened MospfRouter
  import opened MospfNetwork

  // ---- Database entries ----

  predicate Stores(db: seq<Entry>, rid: Addr) { exists k :: 0 <= k < |db| && db[k].rid == rid }

  /** Every entry of the origin is `e`, and there is one. */
  predicate OnlyStores(db: seq<Entry>, rid: Addr, e: Entry) {
    Stores(db, rid) && forall k :: 0 <= k < |db| && db[k].rid == rid ==> db[k] == e
  }

  /** An accepted LSU leaves one entry of its origin: its number, its content, and age 0 however old the entry was. */
  lemma AcceptedIsYoung(r: Router, lsu: Lsu)
    requires Accepts(r, lsu) && UniqueOrigins(r.db)
    ensures OnlyStores(HandleLsu(r, lsu).0.db, lsu.rid, Entry(lsu.rid, lsu.seqNum, 0, lsu.lsas))
  {
    var db := StoreLsu(r.db, lsu);
    var k := if FindEntry(r.db, lsu.rid).Some? then FindEntry(r.db, lsu.rid).value else |r.db|;
    assert db[k].rid == lsu.rid;
  }

  /** LSUs of others leave it alone, and so do older ones. */
  lemma OthersLeaveEntry(r: Router, lsu: Lsu, rid: Addr, e: Entry)
    requires !Accepts(r, lsu) || lsu.rid != rid
    ensures OnlyStores(r.db, rid, e) ==> OnlyStores(HandleLsu(r, lsu).0.db, rid, e)
    ensures !Stores(r.db, rid) ==> !Stores(HandleLsu(r, lsu).0.db, rid)
  {
    var before, after := r.db, HandleLsu(r, lsu).0.db;
    if OnlyStores(before, rid, e) {
      var k :| 0 <= k < |before| && before[k].rid == rid;
      assert after[k] == before[k];
    }
  }

  /** Where the members of an aged database come from. */
  lemma {:induction false} AgedFrom(db: seq<Entry>, x: Entry)
    ensures x in AgeDatabase(db) <==>
      exists k :: 0 <= k < |db| && db[k].alive < 40 && x == db[k].(alive := db[k].alive + 1)
  {
    if db != [] {
      var rest := AgeDatabase(db[1..]);
      AgedFrom(db[1..], x);
      assert x in AgeDatabase(db) <==> x in rest || (db[0].alive < 40 && x == db[0].(alive := db[0].alive + 1));
      if k :| 0 <= k < |db| && db[k].alive < 40 && x == db[k].(alive := db[k].alive + 1) {
        assert k > 0 ==> db[1..][k - 1] == db[k];
      }
      if k :| 0 <= k < |db[1..]| && db[1..][k].alive < 40 && x == db[1..][k].(alive := db[1..][k].alive + 1) {
        assert db[k + 1] == db[1..][k];
      }
    }
  }

  lemma AgedEntry(db: seq<Entry>, rid: Addr, e: Entry)
    requires OnlyStores(db, rid, e)
    ensures e.alive < 40 ==> OnlyStores(AgeDatabase(db), rid, e.(alive := e.alive + 1))
    ensures e.alive >= 40 ==> !Stores(AgeDatabase(db), rid)
  {
    var aged := AgeDatabase(db);
    forall j | 0 <= j < |aged| && aged[j].rid == rid ensures e.alive < 40 && aged[j] == e.(alive := e.alive + 1) {
      AgedFrom(db, aged[j]);
    }
    if e.alive < 40 {
      var k :| 0 <= k < |db| && db[k].rid == rid;
      AgedFrom(db, e.(alive := e.alive + 1));
      var j :| 0 <= j < |aged| && aged[j] == e.(alive := e.alive + 1);
      assert aged[j].rid == rid;
    }
  }

  lemma AgedNothing(db: seq<Entry>, rid: Addr)
    requires !Stores(db, rid)
    ensures !Stores(AgeDatabase(db), rid)
  {
    var aged := AgeDatabase(db);
    forall j | 0 <= j < |aged| ensures aged[j].rid != rid {
      AgedFrom(db, aged[j]);
    }
  }

  /** Event `k` makes router `i` accept an LSU of the origin. */
  predicate AcceptedAt(states: seq<Net>, events: seq<Event>, k: nat, i: nat, rid: Addr)
    requires k < |events| < |states|
  {
    && events[k].Deliver? && events[k].i == i && events[k].m.lsu.rid == rid
    && i < |states[k].routers| && Accepts(states[k].routers[i], events[k].m.lsu)
  }

  /** Passes of router `i`'s database check among events `a` to `b`. */
  function DatabaseTicks(events: seq<Event>, i: nat, a: nat, b: nat): nat
    requires a <= b <= |events|
  {
    if a == b then 0 else DatabaseTicks(events, i, a, b - 1) + if events[b - 1] == DatabaseTick(i) then 1 else 0
  }

  /** The entry of the origin `n` ticks after the LSU that made it. */
  ghost predicate EntryAged(net: Net, i: nat, lsu: Lsu, n: nat) {
    && i < |net.routers|
    && if n <= 40 then OnlyStores(net.routers[i].db, lsu.rid, Entry(lsu.rid, lsu.seqNum, n, lsu.lsas))
       else !Stores(net.routers[i].db, lsu.rid)
  }

  ghost predicate DatabaseKept(net: Net, e: Event, i: nat)
    requires Enabled(net, e) && |net.routers| == |net.history| && i < |net.routers|
  {
    i < |Apply(net, e).routers| && Apply(net, e).routers[i].db == net.routers[i].db
  }

  /** Only LSUs to the router and its own check change its database. */
  lemma DatabaseUntouched(net: Net, e: Event, i: nat)
    requires Enabled(net, e) && |net.routers| == |net.history| && i < |net.routers|
    requires e != DatabaseTick(i) && !(e.Deliver? && e.i == i)
    ensures DatabaseKept(net, e, i)
  {
  }

  lemma EntryStep(net: Net, e: Event, i: nat, lsu: Lsu, n: nat)
    requires Enabled(net, e) && |net.routers| == |net.history| && EntryAged(net, i, lsu, n)
    requires !(e.Deliver? && e.i == i && e.m.lsu.rid == lsu.rid && Accepts(net.routers[i], e.m.lsu))
    ensures EntryAged(Apply(net, e), i, lsu, n + if e == DatabaseTick(i) then 1 else 0)
  {
    var db, entry := net.routers[i].db, Entry(lsu.rid, lsu.seqNum, n, lsu.lsas);
    if e == DatabaseTick(i) {
      if n <= 40 {
        AgedEntry(db, lsu.rid, entry);
      } else {
        AgedNothing(db, lsu.rid);
      }
    } else if e.Deliver? && e.i == i {
      OthersLeaveEntry(net.routers[i], e.m.lsu, lsu.rid, entry);
    } else {
      DatabaseUntouched(net, e, i);
    }
  }

  lemma EntryStarts(states: seq<Net>, events: seq<Event>, k: nat, i: nat, rid: Addr)
    requires Run(states, events) && k < |events| && AcceptedAt(states, events, k, i, rid)
    ensures EntryAged(states[k + 1], i, events[k].m.lsu, 0)
  {
    RunHolds(states, events, k, k);
    assert StepOk(states, events, k) && RouterOk(states[k], i);
    AcceptedIsYoung(states[k].routers[i], events[k].m.lsu);
  }

  lemma EntryNext(states: seq<Net>, events: seq<Event>, k: nat, i: nat, lsu: Lsu, n: nat)
    requires Run(states, events) && k < |events| && EntryAged(states[k], i, lsu, n)
    requires !AcceptedAt(states, events, k, i, lsu.rid)
    ensures EntryAged(states[k + 1], i, lsu, n + if events[k] == DatabaseTick(i) then 1 else 0)
  {
    assert StepOk(states, events, k);
    EntryStep(states[k], events[k], i, lsu, n);
  }

  lemma {:induction false} EntryAges(states: seq<Net>, events: seq<Event>, a: nat, b: nat, i: nat, rid: Addr)
    requires Run(states, events) && a < b < |states| && AcceptedAt(states, events, a, i, rid)
    requires forall k {:trigger AcceptedAt(states, events, k, i, rid)} :: a < k < b ==>
      !AcceptedAt(states, events, k, i, rid)
    ensures EntryAged(states[b], i, events[a].m.lsu, DatabaseTicks(events, i, a + 1, b))
  {
    if b == a + 1 {
      EntryStarts(states, events, a, i, rid);
    } else {
      EntryAges(states, events, a, b - 1, i, rid);
      assert !AcceptedAt(states, events, b - 1, i, rid);
      EntryNext(states, events, b - 1, i, events[a].m.lsu, DatabaseTicks(events, i, a + 1, b - 1));
    }
  }

  /** The life of an entry: it is there exactly as long as at most 40 ticks have passed since the last LSU accepted
      from its origin, and then it is the only one, carries that LSU and counts those ticks. */
  lemma EntryLives(states: seq<Net>, events: seq<Event>, a: nat, b: nat, i: nat, rid: Addr)
    requires Run(states, events) && a < b < |states| && AcceptedAt(states, events, a, i, rid)
    requires forall k {:trigger AcceptedAt(states, events, k, i, rid)} :: a < k < b ==>
      !AcceptedAt(states, events, k, i, rid)
    ensures i < |states[b].routers|
    ensures var n, lsu, db := DatabaseTicks(events, i, a + 1, b), events[a].m.lsu, states[b].routers[i].db;
      && (Stores(db, rid) <==> n <= 40)
      && (n <= 40 ==> OnlyStores(db, rid, Entry(rid, lsu.seqNum, n, lsu.lsas)))
  {
    EntryAges(states, events, a, b, i, rid);
  }

  /** Without an accepted LSU there is no entry. */
  lemma {:induction false} NoEntryUnheard(states: seq<Net>, events: seq<Event>, b: nat, i: nat, rid: Addr)
    requires Run(states, events) && b < |states| && i < |states[0].routers|
    requires forall k {:trigger AcceptedAt(states, events, k, i, rid)} :: 0 <= k < b ==>
      !AcceptedAt(states, events, k, i, rid)
    ensures i < |states[b].routers| && !Stores(states[b].routers[i].db, rid)
  {
    if b > 0 {
      NoEntryUnheard(states, events, b - 1, i, rid);
      assert StepOk(states, events, b - 1) && !AcceptedAt(states, events, b - 1, i, rid);
      var net, e := states[b - 1], events[b - 1];
      if e == DatabaseTick(i) {
        AgedNothing(net.routers[i].db, rid);
      } else if e.Deliver? && e.i == i {
        OthersLeaveEntry(net.routers[i], e.m.lsu, rid, Entry(rid, 0, 0, []));
      } else {
        DatabaseUntouched(net, e, i);
      }
    }
  }
}
