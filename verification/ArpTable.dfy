/** The address cache and its pending requests as values (06-router/arpcache.c). */
module ArpTable {
  import opened Options

  type Ip = bv32
  type Mac = bv48
  type Iface = nat
  type Packet = nat  // packets by identity

  const MAX_ARP_SIZE := 32
  const ARP_ENTRY_TIMEOUT := 15
  const ARP_REQUEST_MAX_RETRIES := 5

  datatype Entry = Entry(ip: Ip, mac: Mac, added: int, valid: bool)

  datatype Request = Request(iface: Iface, ip: Ip, sent: int, retries: int, pending: seq<Packet>)

  datatype Cache = Cache(entries: seq<Entry>, reqs: seq<Request>)

  /** A packet with its link-layer header filled in, handed to an interface. */
  datatype Frame = Frame(iface: Iface, mac: Mac, packet: Packet)

  /** An ARP request on the wire. */
  datatype Query = Query(iface: Iface, ip: Ip)

  predicate Shaped(c: Cache) { |c.entries| == MAX_ARP_SIZE }

  predicate Holds(e: Entry, ip: Ip) { e.valid && e.ip == ip }

  predicate Asks(r: Request, iface: Iface, ip: Ip) { r.ip == ip && r.iface == iface }

  /** The link address of the first valid entry for `ip`. */
  function Lookup(entries: seq<Entry>, ip: Ip): (r: Option<Mac>)
    ensures r == None <==> forall k :: 0 <= k < |entries| ==> !Holds(entries[k], ip)
    ensures r.Some? ==> exists k :: 0 <= k < |entries| && Holds(entries[k], ip) && entries[k].mac == r.value
  {
    if entries == [] then None
    else if Holds(entries[0], ip) then Some(entries[0].mac)
    else
      var r := Lookup(entries[1..], ip);
      assert forall k :: 1 <= k < |entries| ==> entries[k] == entries[1..][k - 1];
      r
  }

  /** The slot that arpcache_insert overwrites, scanning from slot `i` with `vid` chosen so far: the first
      valid entry for the address if there is one, else the last free slot, else the random one. */
  function Slot(entries: seq<Entry>, ip: Ip, i: nat, vid: nat): (r: nat)
    requires i <= |entries| && vid < |entries|
    ensures r < |entries|
    ensures (forall k :: i <= k < |entries| ==> !Holds(entries[k], ip)) ==>
      if forall k :: i <= k < |entries| ==> entries[k].valid then r == vid
      else i <= r && !entries[r].valid && forall k :: r < k < |entries| ==> entries[k].valid
    ensures (exists k :: i <= k < |entries| && Holds(entries[k], ip)) ==>
      i <= r && Holds(entries[r], ip) && forall k :: i <= k < r ==> !Holds(entries[k], ip)
    decreases |entries| - i
  {
    if i == |entries| then vid
    else if !entries[i].valid then Slot(entries, ip, i + 1, i)
    else if entries[i].ip == ip then i
    else Slot(entries, ip, i + 1, vid)
  }

  function Touch(r: Request, p: Packet, now: int): Request {
    r.(pending := r.pending + [p], retries := r.retries + 1, sent := now)
  }

  /** The packet joins the first request for the same interface and address, or makes a new one; either way
      the retry counter goes up and the send time is now. */
  function AppendReq(reqs: seq<Request>, iface: Iface, ip: Ip, p: Packet, now: int): seq<Request> {
    if reqs == [] then [Request(iface, ip, now, 1, [p])]
    else if Asks(reqs[0], iface, ip) then [Touch(reqs[0], p, now)] + reqs[1..]
    else [reqs[0]] + AppendReq(reqs[1..], iface, ip, p, now)
  }

  /** The packets of one request, sent on its interface to the address just learnt. */
  function Deliver(iface: Iface, mac: Mac, pending: seq<Packet>): (r: seq<Frame>)
    ensures |r| == |pending| && forall k :: 0 <= k < |pending| ==> r[k] == Frame(iface, mac, pending[k])
  {
    seq(|pending|, k requires 0 <= k < |pending| => Frame(iface, mac, pending[k]))
  }

  /** The requests for the address go and their packets are sent. */
  function AnswerReqs(reqs: seq<Request>, ip: Ip, mac: Mac): (seq<Request>, seq<Frame>) {
    if reqs == [] then ([], [])
    else
      var (rest, frames) := AnswerReqs(reqs[1..], ip, mac);
      if reqs[0].ip == ip then (rest, Deliver(reqs[0].iface, mac, reqs[0].pending) + frames)
      else ([reqs[0]] + rest, frames)
  }

  lemma {:induction false} AnswerAppends(reqs: seq<Request>, r: Request, ip: Ip, mac: Mac)
    ensures var (rest, frames) := AnswerReqs(reqs, ip, mac);
      AnswerReqs(reqs + [r], ip, mac)
        == if r.ip == ip then (rest, frames + Deliver(r.iface, mac, r.pending)) else (rest + [r], frames)
  {
    if reqs == [] {
      var own := Deliver(r.iface, mac, r.pending);
      assert [] + [r] == [r] && [r][1..] == [] && [r] + [] == [r] && own + [] == own == [] + own;
    } else {
      assert (reqs + [r])[1..] == reqs[1..] + [r];
      AnswerAppends(reqs[1..], r, ip, mac);
      var (rest, frames) := AnswerReqs(reqs[1..], ip, mac);
      var own, last := Deliver(reqs[0].iface, mac, reqs[0].pending), Deliver(r.iface, mac, r.pending);
      assert own + (frames + last) == (own + frames) + last;
      assert [reqs[0]] + (rest + [r]) == ([reqs[0]] + rest) + [r];
    }
  }

  function InsertEntry(entries: seq<Entry>, ip: Ip, mac: Mac, now: int, vid: nat): seq<Entry>
    requires vid < |entries|
  {
    entries[Slot(entries, ip, 0, vid) := Entry(ip, mac, now, true)]
  }

  function SweepEntry(e: Entry, now: int): Entry {
    if e.valid && now > e.added + ARP_ENTRY_TIMEOUT then e.(valid := false) else e
  }

  /** What a sweep does to the requests: those with five retries go with their packets, those older than a
      second are asked again. Their send time stays. */
  datatype Swept = Swept(kept: seq<Request>, dropped: seq<Packet>, asked: seq<Query>)

  function SweepReq(r: Request, now: int): Swept {
    if r.retries >= ARP_REQUEST_MAX_RETRIES then Swept([], r.pending, [])
    else if now > r.sent + 1 then Swept([r.(retries := r.retries + 1)], [], [Query(r.iface, r.ip)])
    else Swept([r], [], [])
  }

  function Join(a: Swept, b: Swept): Swept { Swept(a.kept + b.kept, a.dropped + b.dropped, a.asked + b.asked) }

  function SweepReqs(reqs: seq<Request>, now: int): Swept {
    if reqs == [] then Swept([], [], []) else Join(SweepReq(reqs[0], now), SweepReqs(reqs[1..], now))
  }

  function SweepEntries(entries: seq<Entry>, now: int): (r: seq<Entry>)
    ensures |r| == |entries| && forall k :: 0 <= k < |entries| ==> r[k] == SweepEntry(entries[k], now)
  {
    seq(|entries|, k requires 0 <= k < |entries| => SweepEntry(entries[k], now))
  }
}
