/** What one mOSPF router does on each event, as functions on its state (07-mospf/mospf_daemon.c). */
module MospfRouter {
  import opened MachineInts
  import opened Options

  type Addr = bv32

  const MAX_LSU_TTL := 255
  const HELLO_INTERVAL := 5
  const DATABASE_TIMEOUT := 40

  datatype Lsa = Lsa(network: Addr, mask: Addr, rid: Addr)

  datatype Neighbour = Neighbour(id: Addr, ip: Addr, mask: Addr, alive: nat)

  datatype Iface = Iface(ip: Addr, mask: Addr, nbrs: seq<Neighbour>)

  datatype Entry = Entry(rid: Addr, seqNum: u16, alive: nat, lsas: seq<Lsa>)

  /** A link-state update: origin, sequence number, remaining TTL, advertisements. */
  datatype Lsu = Lsu(rid: Addr, seqNum: u16, ttl: u8, lsas: seq<Lsa>)

  datatype Router = Router(rid: Addr, sequence: u16, ifaces: seq<Iface>, db: seq<Entry>)

  /** An LSU addressed to the neighbour `to`, leaving for the address `ip`. */
  datatype Send = Send(to: Addr, ip: Addr, lsu: Lsu)

  function BroadcastIface(nbrs: seq<Neighbour>, n: nat, lsu: Lsu, except: Addr): seq<Send>
    requires n <= |nbrs|
  {
    if n == 0 then []
    else BroadcastIface(nbrs, n - 1, lsu, except)
         + if nbrs[n - 1].id == except then [] else [Send(nbrs[n - 1].id, nbrs[n - 1].ip, lsu)]
  }

  /** broadcast_lsu over the first `n` interfaces. */
  function Broadcast(ifaces: seq<Iface>, n: nat, lsu: Lsu, except: Addr): seq<Send>
    requires n <= |ifaces|
  {
    if n == 0 then []
    else Broadcast(ifaces, n - 1, lsu, except) + BroadcastIface(ifaces[n - 1].nbrs, |ifaces[n - 1].nbrs|, lsu, except)
  }

  function NeighbourLsa(nbr: Neighbour): Lsa { Lsa(nbr.ip & nbr.mask, nbr.mask, nbr.id) }

  /** One advertisement per neighbour, or one with router id 0 for an interface without neighbours. */
  function AdvertiseIface(iface: Iface): (r: seq<Lsa>)
    ensures |r| == if iface.nbrs == [] then 1 else |iface.nbrs|
  {
    if iface.nbrs == [] then [Lsa(iface.ip & iface.mask, iface.mask, 0)]
    else seq(|iface.nbrs|, k requires 0 <= k < |iface.nbrs| => NeighbourLsa(iface.nbrs[k]))
  }

  function Advertise(ifaces: seq<Iface>, n: nat): seq<Lsa>
    requires n <= |ifaces|
  {
    if n == 0 then [] else Advertise(ifaces, n - 1) + AdvertiseIface(ifaces[n - 1])
  }

  function OwnLsu(r: Router): Lsu {
    Lsu(r.rid, r.sequence, MAX_LSU_TTL, Advertise(r.ifaces, |r.ifaces|))
  }

  /** send_mospf_lsu: the 16-bit sequence number wraps. */
  function SendLsu(r: Router): (Router, seq<Send>) {
    (r.(sequence := U16(r.sequence + 1)), Broadcast(r.ifaces, |r.ifaces|, OwnLsu(r), 0))
  }

  /** The first database entry of the origin. */
  function FindEntry(db: seq<Entry>, rid: Addr): (r: Option<nat>)
    ensures r.Some? ==> r.value < |db| && db[r.value].rid == rid && forall k :: 0 <= k < r.value ==> db[k].rid != rid
    ensures r == None ==> forall k :: 0 <= k < |db| ==> db[k].rid != rid
  {
    FirstIndex(db, (e: Entry) => e.rid == rid)
  }

  /** The LSU is new enough to be stored. */
  predicate Accepts(r: Router, lsu: Lsu) {
    && lsu.ttl >= 1
    && var k := FindEntry(r.db, lsu.rid);
      k.Some? ==> r.db[k.value].seqNum < lsu.seqNum
  }

  function StoreLsu(db: seq<Entry>, lsu: Lsu): seq<Entry> {
    var e := Entry(lsu.rid, lsu.seqNum, 0, lsu.lsas);
    match FindEntry(db, lsu.rid)
    case Some(k) => db[k := e]
    case None => db + [e]
  }

  /** handle_mospf_lsu: store a newer LSU and pass it on, except to its origin, while TTL lasts. */
  function HandleLsu(r: Router, lsu: Lsu): (Router, seq<Send>) {
    if !Accepts(r, lsu) then (r, [])
    else (r.(db := StoreLsu(r.db, lsu)),
          if lsu.ttl > 1 then Broadcast(r.ifaces, |r.ifaces|, lsu.(ttl := lsu.ttl - 1), lsu.rid) else [])
  }

  function FindNeighbour(nbrs: seq<Neighbour>, id: Addr): (r: Option<nat>)
    ensures r.Some? ==> r.value < |nbrs| && nbrs[r.value].id == id && forall k :: 0 <= k < r.value ==> nbrs[k].id != id
    ensures r == None ==> forall k :: 0 <= k < |nbrs| ==> nbrs[k].id != id
  {
    FirstIndex(nbrs, (n: Neighbour) => n.id == id)
  }

  /** handle_mospf_hello: refresh a known neighbour, or add it and announce the change. */
  function HandleHello(r: Router, i: nat, id: Addr, ip: Addr, mask: Addr): (Router, seq<Send>)
    requires i < |r.ifaces|
  {
    var nbrs := r.ifaces[i].nbrs;
    match FindNeighbour(nbrs, id)
    case Some(k) => (r.(ifaces := r.ifaces[i := r.ifaces[i].(nbrs := nbrs[k := nbrs[k].(alive := 0)])]), [])
    case None =>
      SendLsu(r.(ifaces := r.ifaces[i := r.ifaces[i].(nbrs := nbrs + [Neighbour(id, ip, mask, 0)])]))
  }

  function AgeNeighbours(nbrs: seq<Neighbour>): seq<Neighbour> {
    if nbrs == [] then []
    else
      (if nbrs[0].alive >= 3 * HELLO_INTERVAL then [] else [nbrs[0].(alive := nbrs[0].alive + 1)])
      + AgeNeighbours(nbrs[1..])
  }

  function AgeIfaces(ifaces: seq<Iface>): seq<Iface> {
    seq(|ifaces|, k requires 0 <= k < |ifaces| => ifaces[k].(nbrs := AgeNeighbours(ifaces[k].nbrs)))
  }

  predicate HasExpired(nbrs: seq<Neighbour>) {
    exists k :: 0 <= k < |nbrs| && nbrs[k].alive >= 3 * HELLO_INTERVAL
  }

  predicate NeighbourExpires(ifaces: seq<Iface>) {
    exists i {:trigger HasExpired(ifaces[i].nbrs)} :: 0 <= i < |ifaces| && HasExpired(ifaces[i].nbrs)
  }

  /** One pass of checking_nbr_thread: drop silent neighbours and announce the change if there was one. */
  function CheckNeighbours(r: Router): (Router, seq<Send>) {
    var aged := r.(ifaces := AgeIfaces(r.ifaces));
    if NeighbourExpires(r.ifaces) then SendLsu(aged) else (aged, [])
  }

  /** One pass of checking_database_thread. */
  function AgeDatabase(db: seq<Entry>): seq<Entry> {
    if db == [] then []
    else (if db[0].alive >= DATABASE_TIMEOUT then [] else [db[0].(alive := db[0].alive + 1)]) + AgeDatabase(db[1..])
  }

  // ---- Who gets what ----

  predicate IsNeighbour(ifaces: seq<Iface>, id: Addr) {
    exists i, k :: 0 <= i < |ifaces| && 0 <= k < |ifaces[i].nbrs| && ifaces[i].nbrs[k].id == id
  }

  lemma {:induction false} BroadcastIfaceReaches(nbrs: seq<Neighbour>, n: nat, lsu: Lsu, except: Addr, s: Send)
    requires n <= |nbrs|
    ensures s in BroadcastIface(nbrs, n, lsu, except) <==>
      s.lsu == lsu && s.to != except && exists k :: 0 <= k < n && nbrs[k].id == s.to && nbrs[k].ip == s.ip
  {
    if n > 0 {
      BroadcastIfaceReaches(nbrs, n - 1, lsu, except, s);
      assert nbrs[n - 1].id == s.to && nbrs[n - 1].ip == s.ip ==>
        exists k :: 0 <= k < n && nbrs[k].id == s.to && nbrs[k].ip == s.ip;
    }
  }

  /** A broadcast carries the LSU to every neighbour other than `except` and to nobody else. */
  lemma {:induction false} BroadcastReaches(ifaces: seq<Iface>, n: nat, lsu: Lsu, except: Addr, s: Send)
    requires n <= |ifaces|
    ensures s in Broadcast(ifaces, n, lsu, except) <==>
      s.lsu == lsu && s.to != except &&
      exists i, k :: 0 <= i < n && 0 <= k < |ifaces[i].nbrs| && ifaces[i].nbrs[k].id == s.to
        && ifaces[i].nbrs[k].ip == s.ip
  {
    if n > 0 {
      BroadcastReaches(ifaces, n - 1, lsu, except, s);
      BroadcastIfaceReaches(ifaces[n - 1].nbrs, |ifaces[n - 1].nbrs|, lsu, except, s);
    }
  }
}
