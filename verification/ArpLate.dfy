/** A sender that missed in the cache goes on without the lock: what happens when the reply comes in between. */
module ArpLate {
  import opened Options
  import opened ArpTable
  import opened ArpTheorems

  /** A request waits for an address that the cache knows. */
  predicate Coexist(w: World, iface: Iface, ip: Ip) {
    Lookup(w.cache.entries, ip).Some? && RequestOf(w.cache.reqs, iface, ip).Some?
  }

  lemma InsertedIsNew(entries: seq<Entry>, other: Ip, mac: Mac, now: int, vid: nat, ip: Ip)
    requires vid < |entries|
    ensures Lookup(InsertEntry(entries, other, mac, now, vid), ip).Some? ==>
      Lookup(entries, ip).Some? || other == ip
  {
    var after := InsertEntry(entries, other, mac, now, vid);
    if Lookup(after, ip).Some? && other != ip {
      var k :| 0 <= k < |after| && Holds(after[k], ip);
      assert after[k] == entries[k];
    }
  }

  lemma SweepAddsNone(entries: seq<Entry>, now: int, ip: Ip)
    ensures Lookup(SweepEntries(entries, now), ip).Some? ==> Lookup(entries, ip).Some?
  {
    var after := SweepEntries(entries, now);
    if Lookup(after, ip).Some? {
      var k :| 0 <= k < |after| && Holds(after[k], ip);
      assert Holds(entries[k], ip);
    }
  }

  lemma LookupAfter(w: World, e: Event, ip: Ip)
    requires Shaped(w.cache) && Enabled(w, e)
    ensures Lookup(Apply(w, e).cache.entries, ip).Some? ==>
      Lookup(w.cache.entries, ip).Some? || (e.Insert? && e.ip == ip)
  {
    match e
    case Insert(other, mac, now, vid) => InsertedIsNew(w.cache.entries, other, mac, now, vid, ip);
    case SweepAt(now) => SweepAddsNone(w.cache.entries, now, ip);
    case _ => assert Apply(w, e).cache.entries == w.cache.entries;
  }

  /** A request and a valid entry for one address come together in exactly one way: a sender that had missed
      appends its packet after the address has been learnt. */
  lemma CoexistOnlyByLateAppend(w: World, e: Event, iface: Iface, ip: Ip)
    requires Shaped(w.cache) && UniqueReqs(w.cache.reqs) && Enabled(w, e) && !Coexist(w, iface, ip)
    ensures Coexist(Apply(w, e), iface, ip) <==>
      e.Append? && w.held[e.i].iface == iface && w.held[e.i].ip == ip && Lookup(w.cache.entries, ip).Some?
  {
    LookupAfter(w, e, ip);
    RequestAfterStep(w, e, iface, ip);
  }

  /** Where a sender was before the event; it has just missed when it was nowhere. */
  lemma HeldBefore(w: World, e: Event, i: nat) returns (a: nat)
    requires Shaped(w.cache) && Enabled(w, e) && i < |Apply(w, e).held|
    ensures a < |w.held| ==> w.held[a] == Apply(w, e).held[i]
    ensures var h := Apply(w, e).held[i];
      a >= |w.held| ==> e == Send(h.iface, h.ip, h.packet) && Lookup(w.cache.entries, h.ip) == None
  {
    a := if e.Append? && i >= e.i then i + 1 else i;
  }

  /** Such a sender has looked the address up before it was learnt. */
  lemma {:induction false} HeldHasMissed(states: seq<World>, events: seq<Event>, k: nat, i: nat) returns (j: nat)
    requires Run(states, events) && k < |states| && i < |states[k].held|
    ensures j < k && Lookup(states[j].cache.entries, states[k].held[i].ip) == None
    ensures events[j] == Send(states[k].held[i].iface, states[k].held[i].ip, states[k].held[i].packet)
  {
    assert k > 0;
    assert StepOk(states, events, k - 1);
    var a := HeldBefore(states[k - 1], events[k - 1], i);
    if a < |states[k - 1].held| {
      j := HeldHasMissed(states, events, k - 1, a);
    } else {
      j := k - 1;
    }
  }

  // ---- Its packet can be dropped as unreachable although the address is known ----

  lemma YoungStay(entries: seq<Entry>, now: int)
    requires forall k :: 0 <= k < |entries| && entries[k].valid ==> now <= entries[k].added + ARP_ENTRY_TIMEOUT
    ensures SweepEntries(entries, now) == entries
  {
  }

  ghost predicate Reached(w: World) {
    exists states: seq<World>, events: seq<Event> :: Run(states, events) && states[|events|] == w
  }

  lemma ReachedStep(w: World, e: Event)
    requires Reached(w) && Shaped(w.cache) && Enabled(w, e)
    ensures Reached(Apply(w, e))
  {
    var states: seq<World>, events: seq<Event> :| Run(states, events) && states[|events|] == w;
    RunExtends(states, events, e);
    var states', events' := states + [Apply(w, e)], events + [e];
    assert Run(states', events') && states'[|events'|] == Apply(w, e);
  }

  /** Packet 0 waits in request `r` for address 0, which a young entry holds; some run leads here. */
  ghost predicate Late(w: World, r: Request, last: int) {
    && Reached(w) && OneRequest(w, r, 0, last) && Lookup(w.cache.entries, 0).Some?
    && (forall k :: 0 <= k < |w.cache.entries| && w.cache.entries[k].valid ==> w.cache.entries[k].added == 0)
  }

  /** The request after a sweep that keeps it. */
  function Asked(r: Request, now: int): Request { if now > r.sent + 1 then r.(retries := r.retries + 1) else r }

  lemma LateSweep(w: World, r: Request, last: int, now: int) returns (w': World)
    requires Late(w, r, last) && last < now <= ARP_ENTRY_TIMEOUT && r.retries < ARP_REQUEST_MAX_RETRIES
    ensures Late(w', Asked(r, now), now)
  {
    w' := Apply(w, SweepAt(now));
    SweepOne(w, r, 0, last, now);
    YoungStay(w.cache.entries, now);
    ReachedStep(w, SweepAt(now));
  }

  function Start(): World {
    World(Cache(seq(MAX_ARP_SIZE, _ => Entry(0, 0, 0, false)), []), [], multiset{}, multiset{}, multiset{}, 0, 0,
          multiset{})
  }

  lemma StartIsReached()
    ensures Reached(Start()) && Lookup(Start().cache.entries, 0) == None
  {
    var states, events: seq<Event> := [Start()], [];
    assert Run(states, events) && states[|events|] == Start();
  }

  /** A first insertion leaves one valid entry. */
  lemma OneEntry(mac: Mac)
    ensures var after := InsertEntry(Start().cache.entries, 0, mac, 0, 0);
      && Lookup(after, 0).Some?
      && forall k :: 0 <= k < |after| && after[k].valid ==> after[k].added == 0
  {
    var entries := Start().cache.entries;
    InsertedIsFound(entries, 0, mac, 0, 0);
    var slot := Slot(entries, 0, 0, 0);
    assert InsertEntry(entries, 0, mac, 0, 0) == entries[slot := Entry(0, mac, 0, true)];
  }

  /** The state between the reply and the append. */
  predicate Learnt(w: World, mac: Mac) {
    && w.cache == Cache(InsertEntry(Start().cache.entries, 0, mac, 0, 0), [])
    && w.held == [Held(0, 0, 0)] && w.clock == w.lastSweep == 0
  }

  /** The sender misses, and the reply arrives. */
  lemma LateInsert(mac: Mac) returns (w: World)
    ensures Reached(w) && Learnt(w, mac)
  {
    StartIsReached();
    var missed := Apply(Start(), Send(0, 0, 0));
    ReachedStep(Start(), Send(0, 0, 0));
    assert missed.held == [Held(0, 0, 0)];
    w := Apply(missed, Insert(0, mac, 0, 0));
    ReachedStep(missed, Insert(0, mac, 0, 0));
  }

  lemma LateAppend(w: World, mac: Mac)
    requires Reached(w) && Learnt(w, mac)
    ensures Late(Apply(w, Append(0, 0)), Request(0, 0, 0, 1, [0]), 0)
  {
    OneEntry(mac);
    var after := Apply(w, Append(0, 0));
    ReachedStep(w, Append(0, 0));
    assert after.cache.reqs == [Request(0, 0, 0, 1, [0])] && after.held == [];
  }

  lemma LateStart(mac: Mac) returns (w: World)
    ensures Late(w, Tries(1), 0)
  {
    w := LateInsert(mac);
    LateAppend(w, mac);
    w := Apply(w, Append(0, 0));
  }

  function Tries(now: nat): Request { Request(0, 0, 0, if now <= 2 then 1 else now - 1, [0]) }

  lemma TriesGrow(now: nat)
    requires 2 <= now <= 6
    ensures Tries(now - 1).retries < ARP_REQUEST_MAX_RETRIES
    ensures Tries(now) == Asked(Tries(now - 1), now - 1)
  {
  }

  lemma NextSweep(w: World, now: nat) returns (w': World)
    requires 2 <= now <= 6 && Late(w, Tries(now - 1), now - 2)
    ensures Late(w', Tries(now), now - 1)
  {
    TriesGrow(now);
    w' := LateSweep(w, Tries(now - 1), now - 2, now - 1);
  }

  /** Unanswered sweeps up to the last that still asks. */
  lemma {:induction false} LateSweeps(mac: Mac, now: nat) returns (w: World)
    requires 1 <= now <= 6
    ensures Late(w, Tries(now), now - 1)
  {
    if now == 1 {
      w := LateStart(mac);
    } else {
      var before := LateSweeps(mac, now - 1);
      w := NextSweep(before, now);
    }
  }

  /** A packet is dropped with "host unreachable" while the cache knows its address. */
  lemma LatePacketIsDropped(mac: Mac) returns (w: World)
    ensures Reached(w) && Shaped(w.cache)
    ensures Enabled(w, SweepAt(6)) && Lookup(Apply(w, SweepAt(6)).cache.entries, 0).Some?
    ensures 0 in Apply(w, SweepAt(6)).dropped
  {
    w := LateSweeps(mac, 6);
    YoungStay(w.cache.entries, 6);
    SweepDrops(w.cache.reqs, 6, Tries(6));
  }
}
