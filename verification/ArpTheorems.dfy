/** Runs of the cache with many senders, replies and sweeps: no packet is lost and none waits for ever. */
module ArpTheorems {
  import opened Options
  import opened ArpTable

  /** A sender that missed in the cache and has not reached the pending list yet; it holds no lock. */
  datatype Held = Held(iface: Iface, ip: Ip, packet: Packet)

  /** `asked` are the ARP requests sent so far, `clock` is the time of the last event that read it, `lastSweep` that
      of the last sweep. */
  datatype World = World(cache: Cache, held: seq<Held>, sent: multiset<Packet>, dropped: multiset<Packet>,
                         handed: multiset<Packet>, clock: int, lastSweep: int, asked: multiset<Query>)

  datatype Event =
    | Send(iface: Iface, ip: Ip, packet: Packet)  // iface_send_packet_by_arp up to the end of the lookup
    | Append(i: nat, now: int)                    // a sender that missed goes on
    | Insert(ip: Ip, mac: Mac, now: int, vid: nat)
    | SweepAt(now: int)

  /** Time does not run backwards, and a sweep comes at least a second after the one before. */
  predicate Enabled(w: World, e: Event) {
    match e
    case Send(_, _, _) => true
    case Append(i, now) => i < |w.held| && w.clock <= now
    case Insert(_, _, now, vid) => w.clock <= now && vid < MAX_ARP_SIZE
    case SweepAt(now) => w.clock <= now && w.lastSweep + 1 <= now
  }

  function FramePackets(frames: seq<Frame>): multiset<Packet> {
    if frames == [] then multiset{} else multiset{frames[0].packet} + FramePackets(frames[1..])
  }

  function HeldPackets(held: seq<Held>): multiset<Packet> {
    if held == [] then multiset{} else multiset{held[0].packet} + HeldPackets(held[1..])
  }

  function PendingPackets(reqs: seq<Request>): multiset<Packet> {
    if reqs == [] then multiset{} else multiset(reqs[0].pending) + PendingPackets(reqs[1..])
  }

  function Without(held: seq<Held>, i: nat): seq<Held>
    requires i < |held|
  {
    seq(|held| - 1, k requires 0 <= k < |held| - 1 => if k < i then held[k] else held[k + 1])
  }

  function Apply(w: World, e: Event): (r: World)
    requires Shaped(w.cache) && Enabled(w, e)
    ensures Shaped(r.cache)
  {
    match e
    case Send(iface, ip, p) =>
      if Lookup(w.cache.entries, ip).Some? then w.(sent := w.sent + multiset{p}, handed := w.handed + multiset{p})
      else w.(held := w.held + [Held(iface, ip, p)], handed := w.handed + multiset{p})
    case Append(i, now) =>
      var h := w.held[i];
      w.(cache := w.cache.(reqs := AppendReq(w.cache.reqs, h.iface, h.ip, h.packet, now)),
         held := Without(w.held, i), clock := now, asked := w.asked + multiset{Query(h.iface, h.ip)})
    case Insert(ip, mac, now, vid) =>
      var (rest, frames) := AnswerReqs(w.cache.reqs, ip, mac);
      w.(cache := Cache(InsertEntry(w.cache.entries, ip, mac, now, vid), rest),
         sent := w.sent + FramePackets(frames), clock := now)
    case SweepAt(now) =>
      var s := SweepReqs(w.cache.reqs, now);
      w.(cache := Cache(SweepEntries(w.cache.entries, now), s.kept),
         dropped := w.dropped + multiset(s.dropped), clock := now, lastSweep := now,
         asked := w.asked + multiset(s.asked))
  }

  ghost predicate Init(w: World) {
    && Shaped(w.cache) && (forall k :: 0 <= k < MAX_ARP_SIZE ==> !w.cache.entries[k].valid) && w.cache.reqs == []
    && w.held == [] && w.sent == w.dropped == w.handed == multiset{} && w.lastSweep == w.clock
  }

  predicate StepOk(states: seq<World>, events: seq<Event>, k: nat)
    requires |states| == |events| + 1 && k < |events|
  {
    Shaped(states[k].cache) && Enabled(states[k], events[k]) && states[k + 1] == Apply(states[k], events[k])
  }

  ghost predicate Run(states: seq<World>, events: seq<Event>) {
    && |states| == |events| + 1 && Init(states[0])
    && forall k {:trigger StepOk(states, events, k)} :: 0 <= k < |events| ==> StepOk(states, events, k)
  }

  // ---- Conservation of packets ----

  lemma PendingCons(r: Request, rest: seq<Request>)
    ensures PendingPackets([r] + rest) == multiset(r.pending) + PendingPackets(rest)
  {
    assert ([r] + rest)[1..] == rest;
  }

  lemma {:induction false} AppendCounts(reqs: seq<Request>, iface: Iface, ip: Ip, p: Packet, now: int)
    ensures PendingPackets(AppendReq(reqs, iface, ip, p, now)) == PendingPackets(reqs) + multiset{p}
  {
    var after := AppendReq(reqs, iface, ip, p, now);
    if reqs == [] {
      assert after[1..] == [];
    } else if Asks(reqs[0], iface, ip) {
      assert after[1..] == reqs[1..];
    } else {
      assert after[1..] == AppendReq(reqs[1..], iface, ip, p, now);
      AppendCounts(reqs[1..], iface, ip, p, now);
    }
  }

  lemma {:induction false} DeliverCounts(iface: Iface, mac: Mac, pending: seq<Packet>, frames: seq<Frame>)
    ensures FramePackets(Deliver(iface, mac, pending) + frames) == multiset(pending) + FramePackets(frames)
  {
    var all := Deliver(iface, mac, pending) + frames;
    if pending == [] {
      assert all == frames;
    } else {
      assert all[1..] == Deliver(iface, mac, pending[1..]) + frames;
      assert pending == [pending[0]] + pending[1..];
      DeliverCounts(iface, mac, pending[1..], frames);
    }
  }

  lemma {:induction false} AnswerCounts(reqs: seq<Request>, ip: Ip, mac: Mac)
    ensures var (rest, frames) := AnswerReqs(reqs, ip, mac);
      PendingPackets(rest) + FramePackets(frames) == PendingPackets(reqs)
  {
    if reqs != [] {
      AnswerCounts(reqs[1..], ip, mac);
      var (rest, frames) := AnswerReqs(reqs[1..], ip, mac);
      if reqs[0].ip == ip {
        DeliverCounts(reqs[0].iface, mac, reqs[0].pending, frames);
      } else {
        assert ([reqs[0]] + rest)[1..] == rest;
      }
    }
  }

  lemma SweepCountsOne(r: Request, now: int, rest: Swept)
    ensures var s := Join(SweepReq(r, now), rest);
      PendingPackets(s.kept) + multiset(s.dropped)
        == multiset(r.pending) + (PendingPackets(rest.kept) + multiset(rest.dropped))
  {
    var one := SweepReq(r, now);
    if one.kept == [] {
      assert one.kept + rest.kept == rest.kept;
    } else {
      PendingCons(one.kept[0], rest.kept);
      assert one.kept == [one.kept[0]] && one.dropped + rest.dropped == rest.dropped;
    }
  }

  lemma {:induction false} SweepCounts(reqs: seq<Request>, now: int)
    ensures var s := SweepReqs(reqs, now);
      PendingPackets(s.kept) + multiset(s.dropped) == PendingPackets(reqs)
  {
    if reqs != [] {
      SweepCounts(reqs[1..], now);
      SweepCountsOne(reqs[0], now, SweepReqs(reqs[1..], now));
    }
  }

  lemma WithoutTail(held: seq<Held>, i: nat)
    requires 0 < i < |held|
    ensures Without(held, i)[1..] == Without(held[1..], i - 1) && Without(held, i)[0] == held[0]
  {
  }

  lemma {:induction false} HeldCounts(held: seq<Held>, i: nat)
    requires i < |held|
    ensures HeldPackets(held) == HeldPackets(Without(held, i)) + multiset{held[i].packet}
  {
    if i == 0 {
      assert Without(held, 0) == held[1..];
    } else {
      WithoutTail(held, i);
      HeldCounts(held[1..], i - 1);
    }
  }

  lemma {:induction false} HeldAppend(held: seq<Held>, h: Held)
    ensures HeldPackets(held + [h]) == HeldPackets(held) + multiset{h.packet}
  {
    if held == [] {
      assert ([] + [h])[1..] == [];
    } else {
      assert (held + [h])[1..] == held[1..] + [h];
      HeldAppend(held[1..], h);
    }
  }

  /** Every packet handed over is sent, dropped, pending or in the hands of a sender between two locks. */
  ghost predicate Conserved(w: World) {
    w.handed == w.sent + w.dropped + PendingPackets(w.cache.reqs) + HeldPackets(w.held)
  }

  lemma AppendConserves(w: World, i: nat, now: int)
    requires Shaped(w.cache) && Enabled(w, Append(i, now)) && Conserved(w)
    ensures Conserved(Apply(w, Append(i, now)))
  {
    var h := w.held[i];
    HeldCounts(w.held, i);
    AppendCounts(w.cache.reqs, h.iface, h.ip, h.packet, now);
    var after := Apply(w, Append(i, now));
    assert PendingPackets(after.cache.reqs) == PendingPackets(w.cache.reqs) + multiset{h.packet};
    assert HeldPackets(w.held) == HeldPackets(after.held) + multiset{h.packet};
  }

  lemma InsertConserves(w: World, ip: Ip, mac: Mac, now: int, vid: nat)
    requires Shaped(w.cache) && Enabled(w, Insert(ip, mac, now, vid)) && Conserved(w)
    ensures Conserved(Apply(w, Insert(ip, mac, now, vid)))
  {
    AnswerCounts(w.cache.reqs, ip, mac);
  }

  lemma SweepConserves(w: World, now: int)
    requires Shaped(w.cache) && Enabled(w, SweepAt(now)) && Conserved(w)
    ensures Conserved(Apply(w, SweepAt(now)))
  {
    SweepCounts(w.cache.reqs, now);
  }

  lemma StepConserves(w: World, e: Event)
    requires Shaped(w.cache) && Enabled(w, e) && Conserved(w)
    ensures Conserved(Apply(w, e))
  {
    match e
    case Send(iface, ip, p) => HeldAppend(w.held, Held(iface, ip, p));
    case Append(i, now) => AppendConserves(w, i, now);
    case Insert(ip, mac, now, vid) => InsertConserves(w, ip, mac, now, vid);
    case SweepAt(now) => SweepConserves(w, now);
  }

  lemma StartsConserved(w: World)
    requires Init(w)
    ensures Conserved(w)
  {
  }

  lemma {:induction false} PacketsConserved(states: seq<World>, events: seq<Event>, k: nat)
    requires Run(states, events) && k < |states|
    ensures Conserved(states[k])
  {
    if k == 0 {
      StartsConserved(states[0]);
    } else {
      PacketsConserved(states, events, k - 1);
      assert StepOk(states, events, k - 1);
      StepConserves(states[k - 1], events[k - 1]);
    }
  }

  /** Over all runs a packet handed over once is in exactly one place. */
  lemma ExactlyOnePlace(states: seq<World>, events: seq<Event>, k: nat, p: Packet)
    requires Run(states, events) && k < |states| && states[k].handed[p] == 1
    ensures var w := states[k];
      w.sent[p] + w.dropped[p] + PendingPackets(w.cache.reqs)[p] + HeldPackets(w.held)[p] == 1
  {
    PacketsConserved(states, events, k);
  }

  // ---- One request per interface and address, one valid entry per address ----

  /** The first request for the interface and address. */
  function RequestOf(reqs: seq<Request>, iface: Iface, ip: Ip): (r: Option<Request>)
    ensures r == None <==> forall k :: 0 <= k < |reqs| ==> !Asks(reqs[k], iface, ip)
    ensures r.Some? ==> r.value in reqs && Asks(r.value, iface, ip)
  {
    if reqs == [] then None
    else if Asks(reqs[0], iface, ip) then Some(reqs[0])
    else
      var r := RequestOf(reqs[1..], iface, ip);
      assert forall k :: 1 <= k < |reqs| ==> reqs[k] == reqs[1..][k - 1];
      r
  }

  predicate UniqueReqs(reqs: seq<Request>) {
    forall j, k :: 0 <= j < k < |reqs| ==> !Asks(reqs[k], reqs[j].iface, reqs[j].ip)
  }

  predicate UniqueEntries(entries: seq<Entry>) {
    forall j, k :: 0 <= j < k < |entries| && entries[j].valid && entries[k].valid ==> entries[j].ip != entries[k].ip
  }

  lemma UniqueTail(reqs: seq<Request>)
    requires reqs != []
    ensures UniqueReqs(reqs) <==> RequestOf(reqs[1..], reqs[0].iface, reqs[0].ip) == None && UniqueReqs(reqs[1..])
  {
    if UniqueReqs(reqs) {
      forall k | 0 <= k < |reqs[1..]| ensures !Asks(reqs[1..][k], reqs[0].iface, reqs[0].ip) {
        assert reqs[1..][k] == reqs[k + 1];
      }
    } else {
      var j, k :| 0 <= j < k < |reqs| && Asks(reqs[k], reqs[j].iface, reqs[j].ip);
      if j == 0 {
        assert reqs[1..][k - 1] == reqs[k];
      } else {
        assert reqs[1..][j - 1] == reqs[j] && reqs[1..][k - 1] == reqs[k];
      }
    }
  }

  lemma UniqueCons(r: Request, rest: seq<Request>)
    ensures UniqueReqs([r] + rest) <==> RequestOf(rest, r.iface, r.ip) == None && UniqueReqs(rest)
  {
    assert ([r] + rest)[1..] == rest;
    UniqueTail([r] + rest);
  }

  lemma RequestCons(r: Request, rest: seq<Request>, iface: Iface, ip: Ip)
    ensures RequestOf([r] + rest, iface, ip) == if Asks(r, iface, ip) then Some(r) else RequestOf(rest, iface, ip)
  {
    assert ([r] + rest)[1..] == rest;
  }

  function Appended(r: Option<Request>, iface: Iface, ip: Ip, p: Packet, now: int): Request {
    if r == None then Request(iface, ip, now, 1, [p]) else Touch(r.value, p, now)
  }

  /** What appending does to the request of each interface and address. */
  lemma {:induction false} AppendSeen(reqs: seq<Request>, iface: Iface, ip: Ip, p: Packet, now: int, iface': Iface,
                                      ip': Ip)
    ensures RequestOf(AppendReq(reqs, iface, ip, p, now), iface', ip') ==
      if iface' != iface || ip' != ip then RequestOf(reqs, iface', ip')
      else Some(Appended(RequestOf(reqs, iface, ip), iface, ip, p, now))
  {
    if reqs == [] {
      RequestCons(Request(iface, ip, now, 1, [p]), [], iface', ip');
    } else if Asks(reqs[0], iface, ip) {
      RequestCons(Touch(reqs[0], p, now), reqs[1..], iface', ip');
    } else {
      RequestCons(reqs[0], AppendReq(reqs[1..], iface, ip, p, now), iface', ip');
      AppendSeen(reqs[1..], iface, ip, p, now, iface', ip');
    }
  }

  lemma {:induction false} AppendKeepsUnique(reqs: seq<Request>, iface: Iface, ip: Ip, p: Packet, now: int)
    requires UniqueReqs(reqs)
    ensures UniqueReqs(AppendReq(reqs, iface, ip, p, now))
  {
    var after := AppendReq(reqs, iface, ip, p, now);
    if reqs != [] {
      UniqueTail(reqs);
      UniqueTail(after);
      if Asks(reqs[0], iface, ip) {
        assert after[1..] == reqs[1..];
      } else {
        assert after[1..] == AppendReq(reqs[1..], iface, ip, p, now);
        AppendKeepsUnique(reqs[1..], iface, ip, p, now);
        AppendSeen(reqs[1..], iface, ip, p, now, reqs[0].iface, reqs[0].ip);
      }
    }
  }

  /** Inserting a mapping empties all requests for its address and touches no other. */
  lemma {:induction false} AnswerSeen(reqs: seq<Request>, ip: Ip, mac: Mac, iface': Iface, ip': Ip)
    ensures RequestOf(AnswerReqs(reqs, ip, mac).0, iface', ip')
      == if ip' == ip then None else RequestOf(reqs, iface', ip')
  {
    if reqs != [] {
      AnswerSeen(reqs[1..], ip, mac, iface', ip');
      var rest := AnswerReqs(reqs[1..], ip, mac).0;
      assert ([reqs[0]] + rest)[1..] == rest;
    }
  }

  /** The frame carries a packet of a request for the address, on the interface of that request. */
  predicate Owed(reqs: seq<Request>, ip: Ip, mac: Mac, f: Frame) {
    exists r :: r in reqs && r.ip == ip && f.iface == r.iface && f.mac == mac && f.packet in r.pending
  }

  /** Inserting a mapping sends exactly the packets of the requests for its address. */
  lemma {:induction false} AnswerDelivers(reqs: seq<Request>, ip: Ip, mac: Mac, f: Frame)
    ensures f in AnswerReqs(reqs, ip, mac).1 <==> Owed(reqs, ip, mac, f)
  {
    if reqs != [] {
      AnswerDelivers(reqs[1..], ip, mac, f);
      var r, own := reqs[0], Deliver(reqs[0].iface, mac, reqs[0].pending);
      if r.ip == ip && f.iface == r.iface && f.mac == mac && f.packet in r.pending {
        var k :| 0 <= k < |r.pending| && r.pending[k] == f.packet;
        assert own[k] == f;
      }
      assert Owed(reqs[1..], ip, mac, f) ==> Owed(reqs, ip, mac, f);
    }
  }

  lemma {:induction false} AnswerKeepsUnique(reqs: seq<Request>, ip: Ip, mac: Mac)
    requires UniqueReqs(reqs)
    ensures UniqueReqs(AnswerReqs(reqs, ip, mac).0)
  {
    if reqs != [] {
      UniqueTail(reqs);
      AnswerKeepsUnique(reqs[1..], ip, mac);
      var rest := AnswerReqs(reqs[1..], ip, mac).0;
      AnswerSeen(reqs[1..], ip, mac, reqs[0].iface, reqs[0].ip);
      UniqueCons(reqs[0], rest);
    }
  }

  /** What a sweep leaves of a request. */
  function Remaining(r: Request, now: int): Option<Request> {
    if r.retries >= ARP_REQUEST_MAX_RETRIES then None
    else if now > r.sent + 1 then Some(r.(retries := r.retries + 1))
    else Some(r)
  }

  lemma SweepSeenFirst(r: Request, rest: seq<Request>, now: int, iface: Iface, ip: Ip)
    ensures RequestOf(SweepReq(r, now).kept + rest, iface, ip)
      == if Asks(r, iface, ip) && Remaining(r, now).Some? then Remaining(r, now) else RequestOf(rest, iface, ip)
  {
    var one := SweepReq(r, now).kept;
    if one == [] {
      assert one + rest == rest;
    } else {
      assert one == [one[0]];
      RequestCons(one[0], rest, iface, ip);
    }
  }

  /** A sweep treats the request of each interface and address on its own. */
  lemma {:induction false} SweepSeen(reqs: seq<Request>, now: int, iface: Iface, ip: Ip)
    requires UniqueReqs(reqs)
    ensures RequestOf(SweepReqs(reqs, now).kept, iface, ip) ==
      var r := RequestOf(reqs, iface, ip); if r == None then None else Remaining(r.value, now)
  {
    if reqs != [] {
      UniqueTail(reqs);
      SweepSeen(reqs[1..], now, iface, ip);
      SweepSeenFirst(reqs[0], SweepReqs(reqs[1..], now).kept, now, iface, ip);
    }
  }

  lemma {:induction false} SweepDrops(reqs: seq<Request>, now: int, r: Request)
    requires r in reqs && r.retries >= ARP_REQUEST_MAX_RETRIES
    ensures forall p :: p in r.pending ==> p in SweepReqs(reqs, now).dropped
  {
    if r != reqs[0] {
      SweepDrops(reqs[1..], now, r);
    }
  }

  lemma {:induction false} SweepKeepsUnique(reqs: seq<Request>, now: int)
    requires UniqueReqs(reqs)
    ensures UniqueReqs(SweepReqs(reqs, now).kept)
  {
    if reqs != [] {
      UniqueTail(reqs);
      SweepKeepsUnique(reqs[1..], now);
      SweepSeen(reqs[1..], now, reqs[0].iface, reqs[0].ip);
      var one, rest := SweepReq(reqs[0], now).kept, SweepReqs(reqs[1..], now).kept;
      if one == [] {
        assert one + rest == rest;
      } else {
        assert one == [one[0]];
        UniqueCons(one[0], rest);
      }
    }
  }

  /** A new mapping is found at once, and it displaces the valid entry of another address only when the
      whole cache is valid and does not know the address. */
  lemma InsertedIsFound(entries: seq<Entry>, ip: Ip, mac: Mac, now: int, vid: nat)
    requires vid < |entries| && UniqueEntries(entries)
    ensures var after := InsertEntry(entries, ip, mac, now, vid);
      && UniqueEntries(after) && Lookup(after, ip) == Some(mac)
      && forall k :: 0 <= k < |entries| && entries[k].valid && entries[k].ip != ip ==>
           after[k] == entries[k]
             || (k == vid && Lookup(entries, ip) == None && forall j :: 0 <= j < |entries| ==> entries[j].valid)
  {
    var after := InsertEntry(entries, ip, mac, now, vid);
    var slot := Slot(entries, ip, 0, vid);
    assert Holds(after[slot], ip);
    forall k | 0 <= k < |after| && Holds(after[k], ip) ensures k == slot {
    }
  }

  /** What all requests have: a packet, a first try, and a send time that has passed. */
  predicate RequestOk(r: Request, clock: int) { r.pending != [] && r.retries >= 1 && r.sent <= clock }

  ghost predicate Invariant(w: World) {
    && Shaped(w.cache) && UniqueReqs(w.cache.reqs) && UniqueEntries(w.cache.entries) && w.lastSweep <= w.clock
    && forall iface, ip {:trigger RequestsOk(w, iface, ip)} :: RequestsOk(w, iface, ip)
  }

  predicate RequestsOk(w: World, iface: Iface, ip: Ip) {
    var r := RequestOf(w.cache.reqs, iface, ip);
    r.Some? ==> RequestOk(r.value, w.clock)
  }

  /** The request of one interface and address after an event. */
  function RequestAfter(w: World, e: Event, iface: Iface, ip: Ip): Option<Request>
    requires Enabled(w, e)
  {
    var r := RequestOf(w.cache.reqs, iface, ip);
    match e
    case Send(_, _, _) => r
    case Append(i, now) =>
      if w.held[i].iface != iface || w.held[i].ip != ip then r else Some(Appended(r, iface, ip, w.held[i].packet, now))
    case Insert(ip', _, _, _) => if ip' == ip then None else r
    case SweepAt(now) => if r == None then None else Remaining(r.value, now)
  }

  lemma RequestAfterStep(w: World, e: Event, iface: Iface, ip: Ip)
    requires Shaped(w.cache) && UniqueReqs(w.cache.reqs) && Enabled(w, e)
    ensures RequestOf(Apply(w, e).cache.reqs, iface, ip) == RequestAfter(w, e, iface, ip)
  {
    match e
    case Send(_, _, _) =>
    case Append(i, now) => AppendSeen(w.cache.reqs, w.held[i].iface, w.held[i].ip, w.held[i].packet, now, iface, ip);
    case Insert(ip', mac, _, _) => AnswerSeen(w.cache.reqs, ip', mac, iface, ip);
    case SweepAt(now) => SweepSeen(w.cache.reqs, now, iface, ip);
  }

  lemma StepKeepsUnique(w: World, e: Event)
    requires Shaped(w.cache) && UniqueReqs(w.cache.reqs) && UniqueEntries(w.cache.entries) && Enabled(w, e)
    ensures UniqueReqs(Apply(w, e).cache.reqs) && UniqueEntries(Apply(w, e).cache.entries)
  {
    match e
    case Send(_, _, _) =>
    case Append(i, now) => AppendKeepsUnique(w.cache.reqs, w.held[i].iface, w.held[i].ip, w.held[i].packet, now);
    case Insert(ip, mac, now, vid) =>
      AnswerKeepsUnique(w.cache.reqs, ip, mac);
      InsertedIsFound(w.cache.entries, ip, mac, now, vid);
    case SweepAt(now) => SweepKeepsUnique(w.cache.reqs, now);
  }

  lemma StepKeepsRequest(w: World, e: Event, iface: Iface, ip: Ip)
    requires Shaped(w.cache) && UniqueReqs(w.cache.reqs) && Enabled(w, e) && RequestsOk(w, iface, ip)
    ensures RequestsOk(Apply(w, e), iface, ip)
  {
    RequestAfterStep(w, e, iface, ip);
  }

  lemma StepKeepsInvariant(w: World, e: Event)
    requires Invariant(w) && Enabled(w, e)
    ensures Invariant(Apply(w, e))
  {
    StepKeepsUnique(w, e);
    forall iface, ip ensures RequestsOk(Apply(w, e), iface, ip) {
      assert RequestsOk(w, iface, ip);
      StepKeepsRequest(w, e, iface, ip);
    }
  }

  lemma StartsInvariant(w: World)
    requires Init(w)
    ensures Invariant(w)
  {
  }

  /** Over all runs there is at most one request per interface and address and one valid entry per address. */
  lemma {:induction false} InvariantHolds(states: seq<World>, events: seq<Event>, k: nat)
    requires Run(states, events) && k < |states|
    ensures Invariant(states[k])
  {
    if k == 0 {
      StartsInvariant(states[0]);
    } else {
      InvariantHolds(states, events, k - 1);
      assert StepOk(states, events, k - 1);
      StepKeepsInvariant(states[k - 1], events[k - 1]);
    }
  }

  // ---- Bounded waiting ----

  /** How many more sweeps a request can see without being dropped, whatever is appended to it. */
  function Patience(r: Request, clock: int, lastSweep: int): nat {
    var next := if clock > lastSweep + 1 then clock else lastSweep + 1;
    if r.retries >= ARP_REQUEST_MAX_RETRIES then 0
    else 2 * (ARP_REQUEST_MAX_RETRIES - 1 - r.retries) + 1 + if r.sent + 2 > next then r.sent + 2 - next else 0
  }

  ghost predicate Waiting(w: World, iface: Iface, ip: Ip) { RequestOf(w.cache.reqs, iface, ip).Some? }

  ghost function PatienceOf(w: World, iface: Iface, ip: Ip): nat
    requires Waiting(w, iface, ip)
  {
    Patience(RequestOf(w.cache.reqs, iface, ip).value, w.clock, w.lastSweep)
  }

  /** Time passes for a request that nothing is appended to, that something is appended to, or that is swept. */
  lemma PatienceDrops(r: Request, r': Request, clock: int, lastSweep: int, now: int, p: Packet)
    requires RequestOk(r, clock) && lastSweep <= clock <= now
    ensures Patience(r, now, lastSweep) <= Patience(r, clock, lastSweep)
    ensures Patience(Touch(r, p, now), now, lastSweep) <= Patience(r, clock, lastSweep)
    ensures lastSweep + 1 <= now && Remaining(r, now) == Some(r') ==>
      Patience(r', now, now) + 1 <= Patience(r, clock, lastSweep)
  {
  }

  /** A request that stays loses patience with each sweep and gains none otherwise. */
  lemma PatienceFalls(w: World, e: Event, iface: Iface, ip: Ip)
    requires Invariant(w) && Enabled(w, e)
    requires Waiting(w, iface, ip) && Waiting(Apply(w, e), iface, ip)
    ensures PatienceOf(Apply(w, e), iface, ip) + (if e.SweepAt? then 1 else 0) <= PatienceOf(w, iface, ip)
  {
    RequestAfterStep(w, e, iface, ip);
    assert RequestsOk(w, iface, ip);
    var r := RequestOf(w.cache.reqs, iface, ip).value;
    var r' := RequestOf(Apply(w, e).cache.reqs, iface, ip).value;
    match e
    case Send(_, _, _) =>
    case Append(i, now) => PatienceDrops(r, r', w.clock, w.lastSweep, now, w.held[i].packet);
    case Insert(_, _, now, _) => PatienceDrops(r, r', w.clock, w.lastSweep, now, 0);
    case SweepAt(now) => PatienceDrops(r, r', w.clock, w.lastSweep, now, 0);
  }

  lemma PatienceStep(states: seq<World>, events: seq<Event>, k: nat, iface: Iface, ip: Ip)
    requires Run(states, events) && k < |events| && Waiting(states[k], iface, ip) && Waiting(states[k + 1], iface, ip)
    ensures PatienceOf(states[k + 1], iface, ip) + (if events[k].SweepAt? then 1 else 0)
         <= PatienceOf(states[k], iface, ip)
  {
    InvariantHolds(states, events, k);
    assert StepOk(states, events, k);
    PatienceFalls(states[k], events[k], iface, ip);
  }

  lemma PatienceStarts(w: World, iface: Iface, ip: Ip)
    requires Invariant(w) && Waiting(w, iface, ip)
    ensures PatienceOf(w, iface, ip) <= 9
  {
    assert RequestsOk(w, iface, ip);
  }

  function Sweeps(events: seq<Event>, a: nat, b: nat): nat
    requires a <= b <= |events|
  {
    if a == b then 0 else Sweeps(events, a, b - 1) + if events[b - 1].SweepAt? then 1 else 0
  }

  /** A request that is there all the time from `a` to `b` sees at most nine sweeps. */
  lemma {:induction false} PatienceRunsOut(states: seq<World>, events: seq<Event>, a: nat, b: nat, iface: Iface, ip: Ip)
    requires Run(states, events) && a <= b < |states|
    requires forall j {:trigger Waiting(states[j], iface, ip)} :: a <= j <= b ==> Waiting(states[j], iface, ip)
    ensures Waiting(states[b], iface, ip)
    ensures Sweeps(events, a, b) + PatienceOf(states[b], iface, ip) <= 9
  {
    assert Waiting(states[b], iface, ip);
    if a == b {
      InvariantHolds(states, events, b);
      PatienceStarts(states[b], iface, ip);
    } else {
      PatienceRunsOut(states, events, a, b - 1, iface, ip);
      PatienceStep(states, events, b - 1, iface, ip);
    }
  }

  ghost predicate Pends(w: World, iface: Iface, ip: Ip, p: Packet) {
    var r := RequestOf(w.cache.reqs, iface, ip);
    r.Some? && p in r.value.pending
  }

  /** A pending packet stays pending, unless its address is learnt or a sweep drops it. */
  lemma PendingUntil(w: World, e: Event, iface: Iface, ip: Ip, p: Packet)
    requires Invariant(w) && Enabled(w, e) && Pends(w, iface, ip, p) && !(e.Insert? && e.ip == ip)
    ensures Pends(Apply(w, e), iface, ip, p) || (e.SweepAt? && p in SweepReqs(w.cache.reqs, e.now).dropped)
  {
    RequestAfterStep(w, e, iface, ip);
    var r := RequestOf(w.cache.reqs, iface, ip).value;
    if e.SweepAt? && r.retries >= ARP_REQUEST_MAX_RETRIES {
      SweepDrops(w.cache.reqs, e.now, r);
    }
  }

  predicate Unanswered(e: Event, ip: Ip) { !(e.Insert? && e.ip == ip) }

  /** Bounded waiting: when ten sweeps pass with no answer for its address, a packet pending at `a` has been
      dropped with an error message by the tenth at the latest, however many packets joined the request. */
  lemma UnansweredIsDropped(states: seq<World>, events: seq<Event>, a: nat, b: nat, iface: Iface, ip: Ip, p: Packet)
      returns (j: nat)
    requires Run(states, events) && a <= b < |states| && Pends(states[a], iface, ip, p)
    requires forall k {:trigger Unanswered(events[k], ip)} :: a <= k < b ==> Unanswered(events[k], ip)
    requires Sweeps(events, a, b) >= 10
    ensures a <= j < b && events[j].SweepAt? && Sweeps(events, a, j) <= 9
    ensures p in SweepReqs(states[j].cache.reqs, events[j].now).dropped
  {
    j := a;
    while j < b && Pends(states[j + 1], iface, ip, p)
      invariant a <= j <= b && Pends(states[j], iface, ip, p)
      invariant forall k {:trigger Waiting(states[k], iface, ip)} :: a <= k <= j ==> Waiting(states[k], iface, ip)
    {
      j := j + 1;
    }
    PatienceRunsOut(states, events, a, j, iface, ip);
    InvariantHolds(states, events, j);
    assert j < b;
    assert StepOk(states, events, j) && Unanswered(events[j], ip);
    PendingUntil(states[j], events[j], iface, ip, p);
  }

  // ---- The bound is exact ----

  ghost predicate NoAnswer(events: seq<Event>, a: nat, ip: Ip) {
    forall k {:trigger Unanswered(events[k], ip)} :: a <= k < |events| ==> Unanswered(events[k], ip)
  }

  ghost predicate SurvivedFrom(states: seq<World>, events: seq<Event>, a: nat, w: World, iface: Iface, ip: Ip,
                               p: Packet, n: nat) {
    && Run(states, events) && a < |states| && Pends(states[a], iface, ip, p) && states[|events|] == w
    && Sweeps(events, a, |events|) == n && NoAnswer(events, a, ip)
  }

  /** Some run ends in `w` with `n` sweeps and no answer since the packet became pending. */
  ghost predicate Survived(w: World, iface: Iface, ip: Ip, p: Packet, n: nat) {
    exists states: seq<World>, events: seq<Event>, a: nat :: SurvivedFrom(states, events, a, w, iface, ip, p, n)
  }

  lemma {:induction false} SweepsOfPrefix(events: seq<Event>, e: Event, a: nat, b: nat)
    requires a <= b <= |events|
    ensures Sweeps(events + [e], a, b) == Sweeps(events, a, b)
  {
    if a < b {
      SweepsOfPrefix(events, e, a, b - 1);
    }
  }

  lemma RunExtends(states: seq<World>, events: seq<Event>, e: Event)
    requires Run(states, events) && Shaped(states[|events|].cache) && Enabled(states[|events|], e)
    ensures Run(states + [Apply(states[|events|], e)], events + [e])
  {
    var states', events' := states + [Apply(states[|events|], e)], events + [e];
    forall k | 0 <= k < |events'| ensures StepOk(states', events', k) {
      if k < |events| {
        assert StepOk(states, events, k);
      }
    }
  }

  lemma NoAnswerExtends(events: seq<Event>, a: nat, ip: Ip, e: Event)
    requires NoAnswer(events, a, ip) && Unanswered(e, ip)
    ensures NoAnswer(events + [e], a, ip)
  {
    forall k | a <= k < |events + [e]| ensures Unanswered((events + [e])[k], ip) {
      if k < |events| {
        assert Unanswered(events[k], ip);
      }
    }
  }

  lemma SurvivorGoesOn(states: seq<World>, events: seq<Event>, a: nat, w: World, e: Event, iface: Iface, ip: Ip,
                       p: Packet, n: nat)
    requires SurvivedFrom(states, events, a, w, iface, ip, p, n)
    requires Shaped(w.cache) && Enabled(w, e) && Unanswered(e, ip)
    ensures SurvivedFrom(states + [Apply(w, e)], events + [e], a, Apply(w, e), iface, ip, p,
      n + if e.SweepAt? then 1 else 0)
  {
    RunExtends(states, events, e);
    SweepsOfPrefix(events, e, a, |events|);
    NoAnswerExtends(events, a, ip, e);
  }

  lemma SurvivesStep(w: World, e: Event, iface: Iface, ip: Ip, p: Packet, n: nat)
    requires Survived(w, iface, ip, p, n) && Shaped(w.cache) && Enabled(w, e) && Unanswered(e, ip)
    ensures Survived(Apply(w, e), iface, ip, p, n + if e.SweepAt? then 1 else 0)
  {
    var states, events, a :| SurvivedFrom(states, events, a, w, iface, ip, p, n);
    SurvivorGoesOn(states, events, a, w, e, iface, ip, p, n);
  }

  /** The only request is `r`, for interface 0 and address 0, with packet 0 in it; all senders between two locks
      want the same. */
  predicate OneRequest(w: World, r: Request, held: nat, last: int) {
    && Shaped(w.cache) && w.cache.reqs == [r] && Asks(r, 0, 0) && 0 in r.pending && w.clock <= last + 1
      && w.lastSweep == last
    && |w.held| == held && forall k :: 0 <= k < held ==> w.held[k].iface == 0 && w.held[k].ip == 0
  }

  lemma SweepOne(w: World, r: Request, held: nat, last: int, now: int)
    requires OneRequest(w, r, held, last) && last < now && r.retries < ARP_REQUEST_MAX_RETRIES
    ensures OneRequest(Apply(w, SweepAt(now)), if now > r.sent + 1 then r.(retries := r.retries + 1) else r, held, now)
  {
    assert w.cache.reqs[1..] == [];
    var left := if now > r.sent + 1 then r.(retries := r.retries + 1) else r;
    assert SweepReqs(w.cache.reqs, now).kept == [left] + [] == [left];
  }

  lemma JoinOne(w: World, r: Request, held: nat, last: int)
    requires OneRequest(w, r, held, last) && held > 0
    ensures Enabled(w, Append(0, last + 1))
    ensures OneRequest(Apply(w, Append(0, last + 1)), Touch(r, w.held[0].packet, last + 1), held - 1, last)
  {
    var joined := Apply(w, Append(0, last + 1));
    assert joined.cache.reqs == [Touch(r, w.held[0].packet, last + 1)];
    assert joined.held == w.held[1..];
  }

  lemma SweepBoth(w: World, r: Request, held: nat, last: int, n: nat) returns (w': World)
    requires OneRequest(w, r, held, last) && r.retries < ARP_REQUEST_MAX_RETRIES && r.sent == last + 1
      && Survived(w, 0, 0, 0, n)
    ensures OneRequest(w', r, held, last + 2) && Survived(w', 0, 0, 0, n + 2)
  {
    SweepOne(w, r, held, last, last + 1);
    SurvivesStep(w, SweepAt(last + 1), 0, 0, 0, n);
    var once := Apply(w, SweepAt(last + 1));
    SweepOne(once, r, held, last + 1, last + 2);
    SurvivesStep(once, SweepAt(last + 2), 0, 0, 0, n + 1);
    w' := Apply(once, SweepAt(last + 2));
  }

  /** Another packet joins, and the two sweeps that follow find the request too young to ask again. */
  lemma JoinAndSweep(w: World, r: Request, held: nat, last: int, n: nat) returns (w': World, r': Request)
    requires OneRequest(w, r, held, last) && held > 0 && r.retries < ARP_REQUEST_MAX_RETRIES - 1
      && Survived(w, 0, 0, 0, n)
    ensures OneRequest(w', r', held - 1, last + 2) && r'.retries == r.retries + 1 && r'.sent == last + 1
    ensures Survived(w', 0, 0, 0, n + 2)
  {
    JoinOne(w, r, held, last);
    SurvivesStep(w, Append(0, last + 1), 0, 0, 0, n);
    r' := Touch(r, w.held[0].packet, last + 1);
    w' := SweepBoth(Apply(w, Append(0, last + 1)), r', held - 1, last, n);
  }

  /** Four senders have missed for the same address and the first has made the request. */
  lemma FirstRequest() returns (w: World, r: Request)
    ensures OneRequest(w, r, 3, -1) && r.retries == 1 && r.sent == 0
    ensures Survived(w, 0, 0, 0, 0)
  {
    var blank := Entry(0, 0, 0, false);
    var w0 := World(Cache(seq(MAX_ARP_SIZE, _ => blank), []), [], multiset{}, multiset{}, multiset{}, -1, -1,
                    multiset{});
    var states, events := [w0], [];
    w := w0;
    var e := Send(0, 0, 0);
    for i := 0 to 4
      invariant Run(states, events) && states[|events|] == w
      invariant w.cache == w0.cache && w.clock == w.lastSweep == -1 && |w.held| == i
      invariant forall k :: 0 <= k < i ==> w.held[k] == Held(0, 0, 0)
    {
      assert Lookup(w.cache.entries, 0) == None;
      RunExtends(states, events, e);
      w := Apply(w, e);
      states, events := states + [w], events + [e];
    }
    e := Append(0, 0);
    RunExtends(states, events, e);
    w := Apply(w, e);
    states, events := states + [w], events + [e];
    r := Request(0, 0, 0, 1, [0]);
    assert w.cache.reqs == [r];
    assert Pends(w, 0, 0, 0) && Sweeps(events, |events|, |events|) == 0;
    assert SurvivedFrom(states, events, |events|, w, 0, 0, 0, 0);
  }

  /** Nine sweeps can pass: the packet is pending after nine unanswered ones. */
  lemma NineSweepsCanPass() returns (w: World)
    ensures Survived(w, 0, 0, 0, 9) && Pends(w, 0, 0, 0)
  {
    var first, r := FirstRequest();
    w := SweepBoth(first, r, 3, -1, 0);
    w, r := JoinAndSweep(w, r, 3, 1, 2);
    w, r := JoinAndSweep(w, r, 2, 3, 4);
    w, r := JoinAndSweep(w, r, 1, 5, 6);
    SweepOne(w, r, 0, 7, 8);
    SurvivesStep(w, SweepAt(8), 0, 0, 0, 8);
    w := Apply(w, SweepAt(8));
  }
}
