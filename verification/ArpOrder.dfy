/** The order in which packets wait for an address and leave once it is known (06-router/arpcache.c). */
module ArpOrder {
  import opened Options
  import opened ArpTable
  import opened ArpTheorems
  import opened ArpAsk

  /** The packet that event `k` adds for the interface and address, if it is a sender's. */
  function JoinedAt(w: World, e: Event, iface: Iface, ip: Ip): seq<Packet> {
    if Joins(w, e, iface, ip) then [w.held[e.i].packet] else []
  }

  /** The packets added in events `a` to `b`, in order. */
  function Joined(states: seq<World>, events: seq<Event>, a: nat, b: nat, iface: Iface, ip: Ip): seq<Packet>
    requires a <= b <= |events| <= |states|
  {
    if a == b then []
    else Joined(states, events, a, b - 1, iface, ip) + JoinedAt(states[b - 1], events[b - 1], iface, ip)
  }

  /** The packets that wait for the address. */
  function WaitingPackets(w: World, iface: Iface, ip: Ip): seq<Packet> {
    match RequestOf(w.cache.reqs, iface, ip)
    case Some(r) => r.pending
    case None => []
  }

  lemma PendingStep(states: seq<World>, events: seq<Event>, k: nat, iface: Iface, ip: Ip)
    requires Run(states, events) && k < |events| && Waiting(states[k + 1], iface, ip)
    ensures WaitingPackets(states[k + 1], iface, ip)
      == WaitingPackets(states[k], iface, ip) + JoinedAt(states[k], events[k], iface, ip)
  {
    InvariantHolds(states, events, k);
    assert StepOk(states, events, k);
    RequestAfterStep(states[k], events[k], iface, ip);
  }

  /** A list that grows by what is added holds it all in the end. */
  lemma {:induction false} GrowsByJoined(lists: seq<seq<Packet>>, states: seq<World>, events: seq<Event>, a: nat,
                                         b: nat, iface: Iface, ip: Ip)
    requires a <= b <= |events| <= |states| && |lists| == |events| + 1
    requires forall k {:trigger JoinedAt(states[k], events[k], iface, ip)} :: a <= k < b ==>
      lists[k + 1] == lists[k] + JoinedAt(states[k], events[k], iface, ip)
    ensures lists[b] == lists[a] + Joined(states, events, a, b, iface, ip)
    decreases b
  {
    if a < b {
      GrowsByJoined(lists, states, events, a, b - 1, iface, ip);
      var last := JoinedAt(states[b - 1], events[b - 1], iface, ip);
      assert lists[b] == lists[b - 1] + last;
    }
  }

  predicate Lists(lists: seq<seq<Packet>>, states: seq<World>, k: nat, iface: Iface, ip: Ip) {
    k < |lists| == |states| && lists[k] == WaitingPackets(states[k], iface, ip)
  }

  lemma ListsExist(states: seq<World>, iface: Iface, ip: Ip) returns (lists: seq<seq<Packet>>)
    ensures |lists| == |states|
    ensures forall k: nat {:trigger Lists(lists, states, k, iface, ip)} :: k < |lists| ==>
      Lists(lists, states, k, iface, ip)
  {
    lists := seq(|states|, k requires 0 <= k < |states| => WaitingPackets(states[k], iface, ip));
  }

  lemma ListGrows(lists: seq<seq<Packet>>, states: seq<World>, events: seq<Event>, k: nat, iface: Iface, ip: Ip)
    requires Run(states, events) && k < |events| && Waiting(states[k + 1], iface, ip)
    requires Lists(lists, states, k, iface, ip) && Lists(lists, states, k + 1, iface, ip)
    ensures lists[k + 1] == lists[k] + JoinedAt(states[k], events[k], iface, ip)
  {
    PendingStep(states, events, k, iface, ip);
  }

  lemma ListsGrow(lists: seq<seq<Packet>>, states: seq<World>, events: seq<Event>, a: nat, b: nat, iface: Iface, ip: Ip)
    requires Run(states, events) && |lists| == |states| && b < |states| && Stays(states, events, a, b, iface, ip)
    requires forall k: nat {:trigger Lists(lists, states, k, iface, ip)} :: k < |lists| ==>
      Lists(lists, states, k, iface, ip)
    ensures lists[b] == lists[a] + Joined(states, events, a, b, iface, ip)
  {
    forall k | a <= k < b ensures lists[k + 1] == lists[k] + JoinedAt(states[k], events[k], iface, ip) {
      assert Lists(lists, states, k, iface, ip) && Lists(lists, states, k + 1, iface, ip);
      assert Waiting(states[k + 1], iface, ip);
      ListGrows(lists, states, events, k, iface, ip);
    }
    GrowsByJoined(lists, states, events, a, b, iface, ip);
  }

  /** A request holds the packets added since it was made, in the order in which they were added. */
  lemma PendingInOrder(states: seq<World>, events: seq<Event>, a: nat, b: nat, iface: Iface, ip: Ip)
    requires Run(states, events) && b < |states| && Stays(states, events, a, b, iface, ip)
    ensures WaitingPackets(states[b], iface, ip) == Joined(states, events, a, b, iface, ip)
  {
    var lists := ListsExist(states, iface, ip);
    ListsGrow(lists, states, events, a, b, iface, ip);
    assert Lists(lists, states, a, iface, ip) && Lists(lists, states, b, iface, ip);
  }

  /** The frames that leave on the interface, in order. */
  function LeavingOn(frames: seq<Frame>, iface: Iface): seq<Frame> {
    if frames == [] then []
    else (if frames[0].iface == iface then [frames[0]] else []) + LeavingOn(frames[1..], iface)
  }

  lemma LeavingCons(f: Frame, frames: seq<Frame>, iface: Iface)
    ensures LeavingOn([f] + frames, iface) == (if f.iface == iface then [f] else []) + LeavingOn(frames, iface)
  {
    assert ([f] + frames)[1..] == frames;
  }

  lemma {:induction false} DeliverLeaves(own: Iface, mac: Mac, pending: seq<Packet>, frames: seq<Frame>, iface: Iface)
    ensures LeavingOn(Deliver(own, mac, pending) + frames, iface)
      == (if own == iface then Deliver(own, mac, pending) else []) + LeavingOn(frames, iface)
  {
    if pending == [] {
      assert Deliver(own, mac, pending) + frames == frames;
    } else {
      var first, rest := Frame(own, mac, pending[0]), Deliver(own, mac, pending[1..]);
      DeliverLeaves(own, mac, pending[1..], frames, iface);
      LeavingCons(first, rest + frames, iface);
      assert Deliver(own, mac, pending) == [first] + rest;
      assert [first] + rest + frames == [first] + (rest + frames);
    }
  }

  /** On each interface an insertion sends the packets of its request for the address, in order, and nothing else. */
  lemma {:induction false} AnswerLeaves(reqs: seq<Request>, ip: Ip, mac: Mac, iface: Iface)
    requires UniqueReqs(reqs)
    ensures var r := RequestOf(reqs, iface, ip);
      LeavingOn(AnswerReqs(reqs, ip, mac).1, iface) == if r == None then [] else Deliver(iface, mac, r.value.pending)
  {
    if reqs != [] {
      UniqueTail(reqs);
      AnswerLeaves(reqs[1..], ip, mac, iface);
      if reqs[0].ip == ip {
        DeliverLeaves(reqs[0].iface, mac, reqs[0].pending, AnswerReqs(reqs[1..], ip, mac).1, iface);
      }
    }
  }

  /** First in, first out: when the reply for an address comes, the packets that were added since its request was made
      leave on the request's interface, to the address learnt, in the order in which they were added. */
  lemma AnsweredInOrder(states: seq<World>, events: seq<Event>, a: nat, b: nat, iface: Iface)
    requires Run(states, events) && b < |events| && events[b].Insert?
    requires Stays(states, events, a, b, iface, events[b].ip)
    ensures var out := LeavingOn(AnswerReqs(states[b].cache.reqs, events[b].ip, events[b].mac).1, iface);
      var packets := Joined(states, events, a, b, iface, events[b].ip);
      && |out| == |packets|
      && forall k :: 0 <= k < |out| ==> out[k] == Frame(iface, events[b].mac, packets[k])
  {
    InvariantHolds(states, events, b);
    PendingInOrder(states, events, a, b, iface, events[b].ip);
    AnswerLeaves(states[b].cache.reqs, events[b].ip, events[b].mac, iface);
  }
}
