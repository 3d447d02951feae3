/** The cache as the C code keeps it: an array of entries scanned by index and a list of requests
    (06-router/arpcache.c, 06-router/arp.c). */
module ArpCache {
  import opened Options
  import opened ArpTable

  /** Where the first request for the interface and address is. */
  lemma {:induction false} AppendsAt(reqs: seq<Request>, iface: Iface, ip: Ip, p: Packet, now: int, k: nat)
    requires k <= |reqs| && (forall j :: 0 <= j < k ==> !Asks(reqs[j], iface, ip))
      && (k < |reqs| ==> Asks(reqs[k], iface, ip))
    ensures AppendReq(reqs, iface, ip, p, now) ==
      if k == |reqs| then reqs + [Request(iface, ip, now, 1, [p])]
      else reqs[k := Touch(reqs[k], p, now)]
  {
    if k > 0 {
      AppendsAt(reqs[1..], iface, ip, p, now, k - 1);
    }
  }

  lemma JoinRegroup(a: Swept, b: Swept, c: Swept)
    ensures Join(Join(a, b), c) == Join(a, Join(b, c))
  {
    assert (a.kept + b.kept) + c.kept == a.kept + (b.kept + c.kept);
    assert (a.dropped + b.dropped) + c.dropped == a.dropped + (b.dropped + c.dropped);
    assert (a.asked + b.asked) + c.asked == a.asked + (b.asked + c.asked);
  }

  class ArpCache {
    const entries: array<Entry>
    var reqs: seq<Request>

    ghost predicate Valid()
      reads this
    {
      entries.Length == MAX_ARP_SIZE
    }

    function View(): (c: Cache)
      reads this, entries
    {
      Cache(entries[..], reqs)
    }

    /** arpcache_init: all entries zero, no request. */
    constructor ()
      ensures Valid() && fresh(entries)
      ensures View() == Cache(seq(MAX_ARP_SIZE, _ => Entry(0, 0, 0, false)), [])
    {
      entries := new Entry[MAX_ARP_SIZE](_ => Entry(0, 0, 0, false));
      reqs := [];
      new;
      assert entries[..] == seq(MAX_ARP_SIZE, _ => Entry(0, 0, 0, false));
    }

    /** arpcache_lookup. */
    method Find(ip: Ip) returns (mac: Option<Mac>)
      requires Valid()
      ensures mac == Lookup(entries[..], ip)
    {
      assert entries[..][0..] == entries[..];
      for i := 0 to MAX_ARP_SIZE
        invariant Lookup(entries[..], ip) == Lookup(entries[..][i..], ip)
      {
        assert entries[..][i..][0] == entries[i] && entries[..][i..][1..] == entries[..][i + 1..];
        if entries[i].valid && entries[i].ip == ip {
          return Some(entries[i].mac);
        }
      }
      return None;
    }

    /** arpcache_append_packet: the request goes out first, whether or not one is pending. */
    method Append(iface: Iface, ip: Ip, p: Packet, now: int) returns (asked: seq<Query>)
      requires Valid()
      modifies this
      ensures View() == Cache(old(entries[..]), AppendReq(old(reqs), iface, ip, p, now))
      ensures asked == [Query(iface, ip)]
    {
      asked := [Query(iface, ip)];
      var k := 0;
      while k < |reqs| && !Asks(reqs[k], iface, ip)
        invariant k <= |reqs| && forall j :: 0 <= j < k ==> !Asks(reqs[j], iface, ip)
      {
        k := k + 1;
      }
      AppendsAt(reqs, iface, ip, p, now, k);
      if k == |reqs| {
        reqs := reqs + [Request(iface, ip, 0, 0, [])];
      }
      var r := reqs[k];
      reqs := reqs[k := r.(pending := r.pending + [p], retries := r.retries + 1, sent := now)];
      assert k == |old(reqs)| ==> reqs == old(reqs) + [reqs[k]] && [] + [p] == [p];
    }

    /** iface_send_packet_by_arp with no other thread in between. */
    method SendByArp(iface: Iface, ip: Ip, p: Packet, now: int) returns (frames: seq<Frame>, asked: seq<Query>)
      requires Valid()
      modifies this
      ensures match Lookup(old(entries[..]), ip)
        case Some(mac) => frames == [Frame(iface, mac, p)] && asked == [] && View() == old(View())
        case None => frames == [] && asked == [Query(iface, ip)]
                     && View() == Cache(old(entries[..]), AppendReq(old(reqs), iface, ip, p, now))
    {
      var mac := Find(ip);
      frames, asked := [], [];
      if mac.Some? {
        frames := [Frame(iface, mac.value, p)];
      } else {
        asked := Append(iface, ip, p, now);
      }
    }

    /** arpcache_insert; `vid` is the random slot. */
    method Insert(ip: Ip, mac: Mac, now: int, vid: nat) returns (frames: seq<Frame>)
      requires Valid() && vid < MAX_ARP_SIZE
      modifies this, entries
      ensures entries[..] == InsertEntry(old(entries[..]), ip, mac, now, vid)
      ensures (reqs, frames) == AnswerReqs(old(reqs), ip, mac)
    {
      var slot: nat, i: nat := vid, 0;
      while i < MAX_ARP_SIZE
        invariant i <= MAX_ARP_SIZE && slot < MAX_ARP_SIZE
        invariant Slot(entries[..], ip, 0, vid) == Slot(entries[..], ip, i, slot)
      {
        if !entries[i].valid {
          slot := i;
        } else if entries[i].ip == ip {
          slot := i;
          break;
        }
        i := i + 1;
      }
      entries[slot] := Entry(ip, mac, now, true);
      frames := AnswerPending(ip, mac);
    }

    /** Its inner loop: the packets of one request. */
    method SendPending(r: Request, mac: Mac) returns (frames: seq<Frame>)
      ensures frames == Deliver(r.iface, mac, r.pending)
    {
      frames := [];
      for j := 0 to |r.pending|
        invariant frames == Deliver(r.iface, mac, r.pending)[..j]
      {
        frames := frames + [Frame(r.iface, mac, r.pending[j])];
      }
    }

    /** The second loop of arpcache_insert. */
    method AnswerPending(ip: Ip, mac: Mac) returns (frames: seq<Frame>)
      modifies this
      ensures (reqs, frames) == AnswerReqs(old(reqs), ip, mac)
    {
      frames := [];
      var list, kept := reqs, [];
      for k := 0 to |list|
        invariant (kept, frames) == AnswerReqs(list[..k], ip, mac)
      {
        AnswerAppends(list[..k], list[k], ip, mac);
        assert list[..k + 1] == list[..k] + [list[k]];
        if list[k].ip == ip {
          var sent := SendPending(list[k], mac);
          frames := frames + sent;
        } else {
          kept := kept + [list[k]];
        }
      }
      assert list[..|list|] == list;
      reqs := kept;
    }

    /** One pass of arpcache_sweep: first the entries, then the requests. */
    method Sweep(now: int) returns (dropped: seq<Packet>, asked: seq<Query>)
      requires Valid()
      modifies this, entries
      ensures entries[..] == SweepEntries(old(entries[..]), now)
      ensures Swept(reqs, dropped, asked) == SweepReqs(old(reqs), now)
    {
      for i := 0 to MAX_ARP_SIZE
        invariant reqs == old(reqs)
        invariant forall k :: 0 <= k < i ==> entries[k] == SweepEntry(old(entries[k]), now)
        invariant forall k :: i <= k < MAX_ARP_SIZE ==> entries[k] == old(entries[k])
      {
        if entries[i].valid && now > entries[i].added + ARP_ENTRY_TIMEOUT {
          entries[i] := entries[i].(valid := false);
        }
      }
      dropped, asked := SweepPending(now);
    }

    /** The second loop of arpcache_sweep. */
    method SweepPending(now: int) returns (dropped: seq<Packet>, asked: seq<Query>)
      modifies this
      ensures Swept(reqs, dropped, asked) == SweepReqs(old(reqs), now)
    {
      var kept := [];
      dropped, asked := [], [];
      assert reqs[0..] == reqs && Join(Swept([], [], []), SweepReqs(reqs, now)) == SweepReqs(reqs, now);
      for k := 0 to |reqs|
        invariant reqs == old(reqs)
        invariant Join(Swept(kept, dropped, asked), SweepReqs(reqs[k..], now)) == SweepReqs(old(reqs), now)
      {
        var r := reqs[k];
        assert reqs[k..][0] == r && reqs[k..][1..] == reqs[k + 1..];
        JoinRegroup(Swept(kept, dropped, asked), SweepReq(r, now), SweepReqs(reqs[k + 1..], now));
        ghost var next := Join(Swept(kept, dropped, asked), SweepReq(r, now));
        if r.retries >= ARP_REQUEST_MAX_RETRIES {
          dropped := dropped + r.pending;
        } else if now > r.sent + 1 {
          asked := asked + [Query(r.iface, r.ip)];
          kept := kept + [r.(retries := r.retries + 1)];
        } else {
          kept := kept + [r];
        }
        assert Swept(kept, dropped, asked) == next;
      }
      assert reqs[|reqs|..] == [];
      assert Join(Swept(kept, dropped, asked), Swept([], [], [])) == Swept(kept, dropped, asked);
      reqs := kept;
    }
  }
}
