/** How often an address is asked for, and how long a learnt one is remembered (06-router/arpcache.c, arp.c). */
module ArpAsk {
  import opened Options
  import opened ArpTable
  import opened ArpTheorems

  // ---- ARP requests ----

  /** The request of the interface and address is asked again by a sweep at `now`. */
  predicate AskedAgain(reqs: seq<Request>, iface: Iface, ip: Ip, now: int) {
    exists r :: r in reqs && r.iface == iface && r.ip == ip && r.retries < 5 && now > r.sent + 1
  }

  lemma AsksFirst(r: Request, rest: seq<Query>, now: int, q: Query)
    ensures multiset(SweepReq(r, now).asked + rest)[q]
      == multiset(rest)[q]
        + if r.iface == q.iface && r.ip == q.ip && r.retries < 5 && now > r.sent + 1 then 1 else 0
  {
    if SweepReq(r, now).asked == [] {
      assert SweepReq(r, now).asked + rest == rest;
    }
  }

  /** A sweep asks again, once each, exactly for the requests with fewer than five tries that are more than a second
      old. */
  lemma {:induction false} SweepAsks(reqs: seq<Request>, now: int, iface: Iface, ip: Ip)
    requires UniqueReqs(reqs)
    ensures multiset(SweepReqs(reqs, now).asked)[Query(iface, ip)] == if AskedAgain(reqs, iface, ip, now) then 1 else 0
  {
    if reqs != [] {
      UniqueTail(reqs);
      SweepAsks(reqs[1..], now, iface, ip);
      AsksFirst(reqs[0], SweepReqs(reqs[1..], now).asked, now, Query(iface, ip));
      AskedSplits(reqs, iface, ip, now);
    }
  }

  lemma AskedSplits(reqs: seq<Request>, iface: Iface, ip: Ip, now: int)
    requires reqs != [] && RequestOf(reqs[1..], reqs[0].iface, reqs[0].ip) == None
    ensures AskedAgain(reqs, iface, ip, now) <==>
      AskedAgain(reqs[1..], iface, ip, now) || AskedAgain([reqs[0]], iface, ip, now)
    ensures !(AskedAgain(reqs[1..], iface, ip, now) && AskedAgain([reqs[0]], iface, ip, now))
  {
    var r, rest := reqs[0], reqs[1..];
    assert forall x :: x in reqs <==> x == r || x in rest;
  }

  /** How often the address has been asked for on the interface. */
  function Asked(w: World, iface: Iface, ip: Ip): nat { w.asked[Query(iface, ip)] }

  /** The tries of its request, 0 without one. */
  function Tries(w: World, iface: Iface, ip: Ip): int {
    match RequestOf(w.cache.reqs, iface, ip)
    case Some(r) => r.retries
    case None => 0
  }

  /** The request goes away: answered, or given up. */
  predicate Ends(w: World, e: Event, iface: Iface, ip: Ip)
    requires Shaped(w.cache) && Enabled(w, e)
  {
    RequestOf(w.cache.reqs, iface, ip).Some? && RequestOf(Apply(w, e).cache.reqs, iface, ip) == None
  }

  lemma UniqueIsOf(reqs: seq<Request>, r: Request)
    requires UniqueReqs(reqs) && r in reqs
    ensures RequestOf(reqs, r.iface, r.ip) == Some(r)
  {
    var o := RequestOf(reqs, r.iface, r.ip);
    var j :| 0 <= j < |reqs| && reqs[j] == r;
    assert Asks(reqs[j], r.iface, r.ip);
    var k :| 0 <= k < |reqs| && reqs[k] == o.value;
    assert Asks(reqs[k], reqs[j].iface, reqs[j].ip) && Asks(reqs[j], reqs[k].iface, reqs[k].ip);
  }

  lemma SweepAsksOf(reqs: seq<Request>, now: int, iface: Iface, ip: Ip)
    requires UniqueReqs(reqs)
    ensures var r := RequestOf(reqs, iface, ip);
      multiset(SweepReqs(reqs, now).asked)[Query(iface, ip)]
        == if r.Some? && r.value.retries < 5 && now > r.value.sent + 1 then 1 else 0
  {
    SweepAsks(reqs, now, iface, ip);
    if r :| r in reqs && r.iface == iface && r.ip == ip {
      UniqueIsOf(reqs, r);
    }
  }

  /** Every ARP request for the address is one more try, and every try is one. */
  lemma AskingIsTrying(w: World, e: Event, iface: Iface, ip: Ip)
    requires Shaped(w.cache) && UniqueReqs(w.cache.reqs) && Enabled(w, e) && !Ends(w, e, iface, ip)
    ensures Asked(Apply(w, e), iface, ip) - Asked(w, iface, ip) == Tries(Apply(w, e), iface, ip) - Tries(w, iface, ip)
  {
    RequestAfterStep(w, e, iface, ip);
    AskedAfter(w, e, iface, ip);
  }

  /** How many ARP requests for the address an event sends. */
  lemma AskedAfter(w: World, e: Event, iface: Iface, ip: Ip)
    requires Shaped(w.cache) && UniqueReqs(w.cache.reqs) && Enabled(w, e)
    ensures var r := RequestOf(w.cache.reqs, iface, ip);
      Asked(Apply(w, e), iface, ip) - Asked(w, iface, ip)
        == if Joins(w, e, iface, ip) then 1
           else if e.SweepAt? && r.Some? && r.value.retries < 5 && e.now > r.value.sent + 1 then 1
           else 0
  {
    match e
    case SweepAt(now) => SweepAsksOf(w.cache.reqs, now, iface, ip);
    case _ =>
  }

  /** The request that is there at `b` was made after `a` and has stayed since. */
  ghost predicate Stays(states: seq<World>, events: seq<Event>, a: nat, b: nat, iface: Iface, ip: Ip)
    requires b < |states| == |events| + 1
  {
    a < b && RequestOf(states[a].cache.reqs, iface, ip) == None
    && forall k {:trigger Waiting(states[k], iface, ip)} :: a < k <= b ==> Waiting(states[k], iface, ip)
  }

  /** Over runs: since a request was made, its address has been asked for exactly as often as it counts tries. */
  lemma {:induction false} AskedAsOftenAsTried(states: seq<World>, events: seq<Event>, a: nat, b: nat, iface: Iface,
                                               ip: Ip)
    requires Run(states, events) && b < |states| && Stays(states, events, a, b, iface, ip)
    ensures Asked(states[b], iface, ip) - Asked(states[a], iface, ip) == Tries(states[b], iface, ip)
    decreases b
  {
    if b > a + 1 {
      AskedAsOftenAsTried(states, events, a, b - 1, iface, ip);
    }
    assert Waiting(states[b], iface, ip);
    AskedStep(states, events, b - 1, iface, ip);
  }

  lemma AskedStep(states: seq<World>, events: seq<Event>, k: nat, iface: Iface, ip: Ip)
    requires Run(states, events) && k < |events| && Waiting(states[k + 1], iface, ip)
    ensures Asked(states[k + 1], iface, ip) - Asked(states[k], iface, ip)
      == Tries(states[k + 1], iface, ip) - Tries(states[k], iface, ip)
  {
    InvariantHolds(states, events, k);
    assert StepOk(states, events, k);
    AskingIsTrying(states[k], events[k], iface, ip);
  }

  /** A sender joins the request or makes it. */
  predicate Joins(w: World, e: Event, iface: Iface, ip: Ip) {
    e.Append? && e.i < |w.held| && w.held[e.i].iface == iface && w.held[e.i].ip == ip
  }

  lemma TriesWithoutJoining(w: World, e: Event, iface: Iface, ip: Ip)
    requires Shaped(w.cache) && UniqueReqs(w.cache.reqs) && Enabled(w, e)
    requires !Joins(w, e, iface, ip) && Tries(w, iface, ip) <= 5
    ensures Tries(Apply(w, e), iface, ip) <= 5
  {
    RequestAfterStep(w, e, iface, ip);
  }

  /** The request that event `a` makes has one try; as long as nothing joins it, it never has more than five. */
  lemma {:induction false} TriesStayBounded(states: seq<World>, events: seq<Event>, a: nat, b: nat, iface: Iface,
                                            ip: Ip)
    requires Run(states, events) && a < b < |states| && RequestOf(states[a].cache.reqs, iface, ip) == None
    requires forall k {:trigger Joins(states[k], events[k], iface, ip)} :: a < k < b ==>
      !Joins(states[k], events[k], iface, ip)
    ensures Tries(states[b], iface, ip) <= 5
    decreases b
  {
    InvariantHolds(states, events, b - 1);
    assert StepOk(states, events, b - 1);
    if b == a + 1 {
      RequestAfterStep(states[a], events[a], iface, ip);
    } else {
      TriesStayBounded(states, events, a, b - 1, iface, ip);
      assert !Joins(states[b - 1], events[b - 1], iface, ip);
      TriesWithoutJoining(states[b - 1], events[b - 1], iface, ip);
    }
  }

  /** A request that a sweep gives up has been asked for at least five times since it was made, and exactly five times
      when nothing joined it. */
  lemma GivenUpAfterFive(states: seq<World>, events: seq<Event>, a: nat, b: nat, iface: Iface, ip: Ip)
    requires Run(states, events) && b < |events| && Stays(states, events, a, b, iface, ip)
    requires events[b].SweepAt? && RequestOf(states[b + 1].cache.reqs, iface, ip) == None
    ensures Asked(states[b], iface, ip) - Asked(states[a], iface, ip) >= 5
    ensures (forall k {:trigger Joins(states[k], events[k], iface, ip)} :: a < k < b ==>
               !Joins(states[k], events[k], iface, ip)) ==>
      Asked(states[b], iface, ip) - Asked(states[a], iface, ip) == 5
    ensures Asked(states[b + 1], iface, ip) == Asked(states[b], iface, ip)
  {
    InvariantHolds(states, events, b);
    assert StepOk(states, events, b) && Waiting(states[b], iface, ip);
    RequestAfterStep(states[b], events[b], iface, ip);
    AskedAsOftenAsTried(states, events, a, b, iface, ip);
    SweepAsksOf(states[b].cache.reqs, events[b].now, iface, ip);
    if forall k {:trigger Joins(states[k], events[k], iface, ip)} :: a < k < b ==>
      !Joins(states[k], events[k], iface, ip) {
      TriesStayBounded(states, events, a, b, iface, ip);
    }
  }

  // ---- Learnt addresses ----

  /** The insertion takes the slot of a valid entry for `ip` for another address. */
  predicate Displaces(w: World, e: Event, ip: Ip) {
    && e.Insert? && e.ip != ip && Lookup(w.cache.entries, e.ip) == None
    && (forall k :: 0 <= k < |w.cache.entries| ==> w.cache.entries[k].valid)
    && e.vid < |w.cache.entries| && w.cache.entries[e.vid].ip == ip
  }

  /** The valid entry of the address, learnt at `added`. */
  predicate Remembers(entries: seq<Entry>, ip: Ip, mac: Mac, added: int) {
    exists k :: 0 <= k < |entries| && entries[k] == Entry(ip, mac, added, true)
  }

  lemma RememberedIsFound(entries: seq<Entry>, ip: Ip, mac: Mac, added: int)
    requires UniqueEntries(entries) && Remembers(entries, ip, mac, added)
    ensures Lookup(entries, ip) == Some(mac)
  {
    var k :| 0 <= k < |entries| && entries[k] == Entry(ip, mac, added, true);
    assert Holds(entries[k], ip);
    var j :| 0 <= j < |entries| && Holds(entries[j], ip) && entries[j].mac == Lookup(entries, ip).value;
    assert Holds(entries[j], ip);
  }

  /** What an event does to a learnt address: only an insertion that displaces it and a sweep more than 15 seconds
      after it was learnt forget it. */
  lemma EntryStep(w: World, e: Event, ip: Ip, mac: Mac, added: int)
    requires Shaped(w.cache) && UniqueEntries(w.cache.entries) && Enabled(w, e)
    requires Remembers(w.cache.entries, ip, mac, added) && !(e.Insert? && e.ip == ip)
    ensures if Displaces(w, e, ip) || (e.SweepAt? && e.now - added > 15)
            then Lookup(Apply(w, e).cache.entries, ip) == None
            else Remembers(Apply(w, e).cache.entries, ip, mac, added)
  {
    var entries, after := w.cache.entries, Apply(w, e).cache.entries;
    var k :| 0 <= k < |entries| && entries[k] == Entry(ip, mac, added, true);
    match e
    case SweepAt(now) =>
      assert after[k] == SweepEntry(entries[k], now);
      if now - added > 15 {
        forall j | 0 <= j < |after| ensures !Holds(after[j], ip) {
          assert Holds(entries[j], ip) ==> j == k;
        }
      }
    case Insert(other, m, now, vid) =>
      InsertStep(entries, ip, k, other, m, now, vid);
      if !Displaces(w, e, ip) {
        assert after[k] == entries[k];
      }
    case _ => assert after[k] == entries[k];
  }

  lemma InsertStep(entries: seq<Entry>, ip: Ip, k: nat, other: Ip, mac: Mac, now: int, vid: nat)
    requires vid < |entries| && UniqueEntries(entries) && k < |entries| && Holds(entries[k], ip) && other != ip
    ensures var after := InsertEntry(entries, other, mac, now, vid);
      if k == vid && Lookup(entries, other) == None && forall j :: 0 <= j < |entries| ==> entries[j].valid
      then Lookup(after, ip) == None
      else after[k] == entries[k]
  {
    var after, slot := InsertEntry(entries, other, mac, now, vid), Slot(entries, other, 0, vid);
    if slot == k {
      forall j | 0 <= j < |after| ensures !Holds(after[j], ip) {
        assert j != k && Holds(entries[j], ip) ==> false;
      }
    }
  }

  /** Nothing but sweeps touches the entry for the address. */
  predicate LeavesEntry(w: World, e: Event, ip: Ip) { !(e.Insert? && e.ip == ip) && !Displaces(w, e, ip) }

  /** No sweep among events `a` to `b` comes more than 15 seconds after `added`. */
  predicate SweptInTime(events: seq<Event>, a: nat, b: nat, added: int)
    requires b <= |events|
  {
    forall k :: a <= k < b && events[k].SweepAt? ==> events[k].now - added <= 15
  }

  lemma UnknownStays(w: World, e: Event, ip: Ip)
    requires Shaped(w.cache) && Enabled(w, e) && Lookup(w.cache.entries, ip) == None && !(e.Insert? && e.ip == ip)
    ensures Lookup(Apply(w, e).cache.entries, ip) == None
  {
    var entries, after := w.cache.entries, Apply(w, e).cache.entries;
    forall k | 0 <= k < |after| ensures !Holds(after[k], ip) {
      assert !Holds(entries[k], ip);
    }
  }

  ghost predicate Aged(w: World, ip: Ip, mac: Mac, added: int, inTime: bool) {
    if inTime then Remembers(w.cache.entries, ip, mac, added) else Lookup(w.cache.entries, ip) == None
  }

  lemma InsertRemembers(w: World, e: Event)
    requires Shaped(w.cache) && Enabled(w, e) && e.Insert?
    ensures Aged(Apply(w, e), e.ip, e.mac, e.now, true)
  {
    assert Apply(w, e).cache.entries[Slot(w.cache.entries, e.ip, 0, e.vid)] == Entry(e.ip, e.mac, e.now, true);
  }

  lemma AgedStep(w: World, e: Event, ip: Ip, mac: Mac, added: int, inTime: bool)
    requires Shaped(w.cache) && UniqueEntries(w.cache.entries) && Enabled(w, e) && LeavesEntry(w, e, ip)
    requires Aged(w, ip, mac, added, inTime)
    ensures Aged(Apply(w, e), ip, mac, added, inTime && (e.SweepAt? ==> e.now - added <= 15))
  {
    if inTime {
      EntryStep(w, e, ip, mac, added);
    } else {
      UnknownStays(w, e, ip);
    }
  }

  lemma InTimeStep(events: seq<Event>, a: nat, b: nat, added: int)
    requires a < b <= |events|
    ensures SweptInTime(events, a, b, added) <==>
      SweptInTime(events, a, b - 1, added) && (events[b - 1].SweepAt? ==> events[b - 1].now - added <= 15)
  {
  }

  lemma {:induction false} EntryAges(states: seq<World>, events: seq<Event>, a: nat, b: nat)
    requires Run(states, events) && a < b < |states| && events[a].Insert?
    requires forall k {:trigger LeavesEntry(states[k], events[k], events[a].ip)} :: a < k < b ==>
      LeavesEntry(states[k], events[k], events[a].ip)
    ensures Aged(states[b], events[a].ip, events[a].mac, events[a].now, SweptInTime(events, a + 1, b, events[a].now))
    decreases b
  {
    var e := events[a];
    assert StepOk(states, events, b - 1);
    if b == a + 1 {
      InsertRemembers(states[a], e);
    } else {
      EntryAges(states, events, a, b - 1);
      InvariantHolds(states, events, b - 1);
      assert LeavesEntry(states[b - 1], events[b - 1], e.ip);
      AgedStep(states[b - 1], events[b - 1], e.ip, e.mac, e.now, SweptInTime(events, a + 1, b - 1, e.now));
      InTimeStep(events, a + 1, b, e.now);
    }
  }

  /** The life of a learnt address: as long as it is not learnt again and not displaced, it is found with its link
      address exactly until a sweep comes more than 15 seconds after it was learnt. */
  lemma EntryLives(states: seq<World>, events: seq<Event>, a: nat, b: nat)
    requires Run(states, events) && a < b < |states| && events[a].Insert?
    requires forall k {:trigger LeavesEntry(states[k], events[k], events[a].ip)} :: a < k < b ==>
      LeavesEntry(states[k], events[k], events[a].ip)
    ensures Lookup(states[b].cache.entries, events[a].ip)
      == if SweptInTime(events, a + 1, b, events[a].now) then Some(events[a].mac) else None
  {
    EntryAges(states, events, a, b);
    InvariantHolds(states, events, b);
    if SweptInTime(events, a + 1, b, events[a].now) {
      RememberedIsFound(states[b].cache.entries, events[a].ip, events[a].mac, events[a].now);
    }
  }
}
