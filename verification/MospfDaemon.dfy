/** The daemon's event handlers as the C code runs them: lists changed in place inside loops, each
    method proved against the functions of MospfRouter. */
module MospfDaemon {
  import opened MachineInts
  import opened Options
  import opened MospfRouter

  class Daemon {
    const rid: Addr
    var sequence: u16
    var ifaces: seq<Iface>
    var db: seq<Entry>

    function View(): Router
      reads this
    {
      Router(rid, sequence, ifaces, db)
    }

    /** mospf_init. */
    constructor (rid: Addr, ifaces: seq<Iface>)
      ensures View() == Router(rid, 0, ifaces, [])
    {
      this.rid, sequence, this.ifaces, db := rid, 0, ifaces, [];
    }

    method BroadcastLsu(lsu: Lsu, except: Addr) returns (out: seq<Send>)
      ensures out == Broadcast(ifaces, |ifaces|, lsu, except)
    {
      out := [];
      for i := 0 to |ifaces|
        invariant out == Broadcast(ifaces, i, lsu, except)
      {
        var nbrs := ifaces[i].nbrs;
        for k := 0 to |nbrs|
          invariant out == Broadcast(ifaces, i, lsu, except) + BroadcastIface(nbrs, k, lsu, except)
        {
          if nbrs[k].id != except {
            out := out + [Send(nbrs[k].id, nbrs[k].ip, lsu)];
          }
        }
      }
    }

    /** The advertisements of one interface, written from slot `n` on. */
    method FillIface(lsas: array<Lsa>, n: nat, iface: Iface, ghost before: seq<Lsa>) returns (m: nat)
      requires n + |AdvertiseIface(iface)| <= lsas.Length && lsas[..n] == before
      modifies lsas
      ensures m == n + |AdvertiseIface(iface)| <= lsas.Length
      ensures lsas[..m] == before + AdvertiseIface(iface)
    {
      m := n;
      if iface.nbrs == [] {
        lsas[m] := Lsa(iface.ip & iface.mask, iface.mask, 0);
        m := m + 1;
      } else {
        for k := 0 to |iface.nbrs|
          invariant m == n + k
          invariant lsas[..m] == before + AdvertiseIface(iface)[..k]
        {
          lsas[m] := NeighbourLsa(iface.nbrs[k]);
          m := m + 1;
        }
      }
    }

    method FillAll(lsas: array<Lsa>)
      requires lsas.Length == |Advertise(ifaces, |ifaces|)|
      modifies lsas
      ensures lsas[..lsas.Length] == Advertise(ifaces, |ifaces|)
    {
      var list, n := ifaces, 0;
      for i := 0 to |list|
        invariant n == |Advertise(list, i)| <= lsas.Length
        invariant lsas[..n] == Advertise(list, i)
      {
        AdvertiseStep(list, i);
        n := FillIface(lsas, n, list[i], Advertise(list, i));
      }
    }

    /** The first half of send_mospf_lsu: the array is sized first and then filled to its last slot. */
    method CollectAdvertisements() returns (lsas: array<Lsa>)
      ensures fresh(lsas) && lsas[..] == Advertise(ifaces, |ifaces|)
    {
      var num := 0;
      for i := 0 to |ifaces|
        invariant num == |Advertise(ifaces, i)|
      {
        num := num + if |ifaces[i].nbrs| != 0 then |ifaces[i].nbrs| else 1;
      }
      lsas := new Lsa[num];
      FillAll(lsas);
      assert lsas[..] == lsas[..lsas.Length];
    }

    /** send_mospf_lsu. */
    method SendOwnLsu() returns (out: seq<Send>)
      modifies `sequence
      ensures (View(), out) == SendLsu(old(View()))
    {
      var lsas := CollectAdvertisements();
      var lsu := Lsu(rid, sequence, MAX_LSU_TTL, lsas[..]);
      assert lsu == OwnLsu(View());
      sequence := U16(sequence + 1);
      out := BroadcastLsu(lsu, 0);
    }

    /** handle_mospf_lsu; `stored` tells that the routing table has to be computed anew. */
    method HandleLsuPacket(lsu: Lsu) returns (out: seq<Send>, stored: bool)
      modifies `db
      ensures (View(), out) == HandleLsu(old(View()), lsu)
      ensures stored <==> Accepts(old(View()), lsu)
      ensures stored ==> Entry(lsu.rid, lsu.seqNum, 0, lsu.lsas) in db
    {
      if lsu.ttl < 1 {
        return [], false;
      }
      var found := None;
      var k := 0;
      while k < |db| && found == None
        invariant k <= |db| && db == old(db)
        invariant found == None ==> forall j :: 0 <= j < k ==> db[j].rid != lsu.rid
        invariant found.Some? ==> found == FindEntry(db, lsu.rid) && db[found.value].seqNum < lsu.seqNum
      {
        if db[k].rid == lsu.rid {
          if db[k].seqNum >= lsu.seqNum {
            return [], false;
          }
          found := Some(k);
        }
        k := k + 1;
      }
      var entry := Entry(lsu.rid, lsu.seqNum, 0, lsu.lsas);
      if found == None {
        db := db + [entry];
        assert db[|db| - 1] == entry;
      } else {
        db := db[found.value := entry];
        assert db[found.value] == entry;
      }
      stored := true;
      if lsu.ttl > 1 {
        out := BroadcastLsu(lsu.(ttl := lsu.ttl - 1), lsu.rid);
      } else {
        out := [];
      }
    }

    /** handle_mospf_hello. */
    method HandleHelloPacket(i: nat, id: Addr, ip: Addr, mask: Addr) returns (out: seq<Send>)
      requires i < |ifaces|
      modifies this
      ensures (View(), out) == HandleHello(old(View()), i, id, ip, mask)
    {
      var nbrs := ifaces[i].nbrs;
      for k := 0 to |nbrs|
        invariant forall j :: 0 <= j < k ==> nbrs[j].id != id
        invariant View() == old(View())
      {
        if nbrs[k].id == id {
          ifaces := ifaces[i := ifaces[i].(nbrs := nbrs[k := nbrs[k].(alive := 0)])];
          return [];
        }
      }
      ifaces := ifaces[i := ifaces[i].(nbrs := nbrs + [Neighbour(id, ip, mask, 0)])];
      out := SendOwnLsu();
    }

    /** The inner loop of checking_nbr_thread on one neighbour list. */
    method CheckList(nbrs: seq<Neighbour>) returns (kept: seq<Neighbour>, expired: bool)
      ensures kept == AgeNeighbours(nbrs)
      ensures expired <==> HasExpired(nbrs)
    {
      kept, expired := [], false;
      for k := 0 to |nbrs|
        invariant kept == AgeNeighbours(nbrs[..k])
        invariant expired <==> HasExpired(nbrs[..k])
      {
        AgeAppends(nbrs[..k], nbrs[k]);
        ExpiredAppends(nbrs[..k], nbrs[k]);
        assert nbrs[..k + 1] == nbrs[..k] + [nbrs[k]];
        if nbrs[k].alive >= 3 * HELLO_INTERVAL {
          expired := true;
        } else {
          kept := kept + [nbrs[k].(alive := nbrs[k].alive + 1)];
        }
      }
      assert nbrs[..|nbrs|] == nbrs;
    }

    /** One pass of checking_nbr_thread. */
    method CheckNeighbourList() returns (out: seq<Send>)
      modifies this
      ensures (View(), out) == CheckNeighbours(old(View()))
    {
      var changed := false;
      for i := 0 to |ifaces|
        invariant |ifaces| == |old(ifaces)|
        invariant forall j :: 0 <= j < i ==> ifaces[j] == AgeIfaces(old(ifaces))[j]
        invariant forall j :: i <= j < |ifaces| ==> ifaces[j] == old(ifaces)[j]
        invariant changed <==> exists j :: 0 <= j < i && HasExpired(old(ifaces)[j].nbrs)
        invariant db == old(db) && sequence == old(sequence)
      {
        var kept, expired := CheckList(ifaces[i].nbrs);
        ifaces := ifaces[i := ifaces[i].(nbrs := kept)];
        changed := changed || expired;
      }
      assert ifaces == AgeIfaces(old(ifaces));
      if changed {
        out := SendOwnLsu();
      } else {
        out := [];
      }
    }

    /** The loop of checking_database_thread. */
    method CheckEntries(db: seq<Entry>) returns (kept: seq<Entry>)
      ensures kept == AgeDatabase(db)
    {
      kept := [];
      for k := 0 to |db|
        invariant kept == AgeDatabase(db[..k])
      {
        AgeDatabaseAppends(db, k);
        if db[k].alive < DATABASE_TIMEOUT {
          kept := kept + [db[k].(alive := db[k].alive + 1)];
        }
      }
      assert db[..|db|] == db;
    }

    /** One pass of checking_database_thread. */
    method CheckDatabase()
      modifies `db
      ensures View() == old(View()).(db := AgeDatabase(old(db)))
    {
      var kept := CheckEntries(db);
      db := kept;
    }
  }

  lemma AdvertiseStep(ifaces: seq<Iface>, i: nat)
    requires i < |ifaces|
    ensures Advertise(ifaces, i + 1) == Advertise(ifaces, i) + AdvertiseIface(ifaces[i])
    ensures |Advertise(ifaces, i)| + |AdvertiseIface(ifaces[i])| <= |Advertise(ifaces, |ifaces|)|
  {
    AdvertiseLength(ifaces, i + 1, |ifaces|);
  }

  /** Ageing one neighbour more. */
  lemma {:induction false} AgeAppends(nbrs: seq<Neighbour>, n: Neighbour)
    ensures AgeNeighbours(nbrs + [n])
      == AgeNeighbours(nbrs) + if n.alive >= 3 * HELLO_INTERVAL then [] else [n.(alive := n.alive + 1)]
  {
    var all := nbrs + [n];
    if nbrs == [] {
      assert all[1..] == [];
    } else {
      assert all[1..] == nbrs[1..] + [n];
      AgeAppends(nbrs[1..], n);
    }
  }

  lemma ExpiredAppends(nbrs: seq<Neighbour>, n: Neighbour)
    ensures HasExpired(nbrs + [n]) <==> HasExpired(nbrs) || n.alive >= 3 * HELLO_INTERVAL
  {
    var all := nbrs + [n];
    assert all[|nbrs|] == n;
    if HasExpired(nbrs) {
      var j :| 0 <= j < |nbrs| && nbrs[j].alive >= 3 * HELLO_INTERVAL;
      assert all[j] == nbrs[j];
    }
  }

  /** Ageing one entry more. */
  lemma {:induction false} AgeDatabaseAppends(db: seq<Entry>, k: nat)
    requires k < |db|
    ensures AgeDatabase(db[..k + 1]) == AgeDatabase(db[..k])
      + if db[k].alive >= DATABASE_TIMEOUT then [] else [db[k].(alive := db[k].alive + 1)]
  {
    if k == 0 {
      assert db[..1][1..] == [];
    } else {
      assert db[..k + 1][1..] == db[1..][..k] && db[..k][1..] == db[1..][..k - 1];
      AgeDatabaseAppends(db[1..], k - 1);
    }
  }

  lemma {:induction false} AdvertiseLength(ifaces: seq<Iface>, a: nat, b: nat)
    requires a <= b <= |ifaces|
    ensures |Advertise(ifaces, a)| <= |Advertise(ifaces, b)|
    decreases b
  {
    if a < b {
      AdvertiseLength(ifaces, a, b - 1);
    }
  }
}
