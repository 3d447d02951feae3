/** How long a mapping lives, told from the packets alone, and the round trip while it does. */
module NatLife {
  import opened Options
  import opened NatTable
  import opened NatTheorems
  import opened NatRoundTrip

  /** The mapping of bucket `h` with external endpoint `ext`, and what it holds. */
  predicate Tracks(n: Nat, h: nat, internal: Endpoint, ext: Endpoint, t0: int, conn: Connection) {
    && Shaped(n) && h < HASH_8BITS
    && var r := FindExternal(n.table[h], ext);
      r.Some? && n.table[h][r.value] == Mapping(n.table[h][r.value].remote, internal, ext, t0, conn)
  }

  /** The statistics of the mapping after an event: of the packets from outside to `ext`, and of those from inside
      that leave as `ext`. */
  function ConnAfter(n: Nat, e: Event, h: nat, ext: Endpoint, conn: Connection): Connection {
    match e
    case In(p, _) => if Bucket(p.src) == h && p.dst == ext then NoteIncoming(conn, p) else conn
    case Out(p, now) =>
      if Shaped(n) && Bucket(p.dst) == h && TranslateOut(n, p, now).1 == Some(p.(src := ext)) then NoteOutgoing(conn, p)
      else conn
    case SweepAt(_) => conn
  }

  /** The statistics that the packets from event `c` up to event `j` add up to. */
  function StatsAt(states: seq<Nat>, events: seq<Event>, c: nat, j: nat, h: nat, ext: Endpoint): Connection
    requires c <= j <= |events| <= |states|
  {
    if j == c then NewConnection
    else ConnAfter(states[j - 1], events[j - 1], h, ext, StatsAt(states, events, c, j - 1, h, ext))
  }

  // ---- One event ----

  lemma TrackIn(n: Nat, p: Packet, now: int, h: nat, internal: Endpoint, ext: Endpoint, t0: int, conn: Connection)
    requires Tracks(n, h, internal, ext, t0, conn)
    ensures Tracks(TranslateIn(n, p, now).0, h, internal, ext, t0, ConnAfter(n, In(p, now), h, ext, conn))
  {
    var g, k := Bucket(p.src), FindExternal(n.table[h], ext).value;
    var after := TranslateIn(n, p, now).0;
    if h != g {
      assert after.table[h] == n.table[h];
    } else {
      var b, c := n.table[h], after.table[h];
      assert |b| <= |c| && forall j :: 0 <= j < |b| ==> c[j].external == b[j].external;
      assert FindExternal(c, ext) == Some(k);
    }
  }

  lemma TrackOut(n: Nat, p: Packet, now: int, h: nat, internal: Endpoint, ext: Endpoint, t0: int, conn: Connection)
    requires Tracks(n, h, internal, ext, t0, conn) && Unique(n) && Conserved(n) && ext.port != 0
    ensures Tracks(TranslateOut(n, p, now).0, h, internal, ext, t0, ConnAfter(n, Out(p, now), h, ext, conn))
  {
    var g, k := Bucket(p.dst), FindExternal(n.table[h], ext).value;
    var after := TranslateOut(n, p, now).0;
    if h != g {
      assert after.table[h] == n.table[h];
    } else {
      var b, c := n.table[h], after.table[h];
      assert UniqueBucket(b);
      assert |b| <= |c| && forall j :: 0 <= j < |b| ==> c[j].external == b[j].external;
      assert FindExternal(c, ext) == Some(k);
      match FindInternal(b, p.src)
      case Some(j) =>
        assert b[j].external == ext ==> j == k;
      case None => NewPortIsNew(n, p, h, k);
    }
  }

  /** A port just allocated is not the one of mapping `k`. */
  lemma NewPortIsNew(n: Nat, p: Packet, h: nat, k: nat)
    requires Conserved(n) && h < HASH_8BITS && k < |n.table[h]| && n.table[h][k].external.port != 0
    ensures AllocPort(n.taken).1 != n.table[h][k].external.port
  {
    var port := AllocPort(n.taken).1;
    if port != 0 {
      AllocatesLeastFree(n.taken);
      assert PortOk(n.table, n.taken, port);
      UnusedInBucket(n.table, h, port);
    }
  }

  /** A sweep keeps the mapping as it is, exactly when it is at most 60 seconds old and not finished. */
  lemma TrackSweep(n: Nat, now: int, h: nat, internal: Endpoint, ext: Endpoint, t0: int, conn: Connection)
    requires Tracks(n, h, internal, ext, t0, conn) && Unique(n) && ext.port != 0
    ensures var after := Sweep(n, now, HASH_8BITS);
      if now - t0 <= TCP_ESTABLISHED_TIMEOUT && !IsFinished(conn) then Tracks(after, h, internal, ext, t0, conn)
      else FindExternal(after.table[h], ext) == None
  {
    var b, k := n.table[h], FindExternal(n.table[h], ext).value;
    ExpiredIsForgotten(n, now, h, k);
    SweepFilters(n, now, HASH_8BITS, h);
    assert UniqueBucket(b);
    var after := Sweep(n, now, HASH_8BITS).table[h];
    var r := FindExternal(after, ext);
    if r.Some? {
      assert after[r.value] in b;
      var j :| 0 <= j < |b| && b[j] == after[r.value];
      assert j == k;
    }
  }

  // ---- Over runs ----

  /** Event `c` makes the mapping. */
  ghost predicate Created(states: seq<Nat>, events: seq<Event>, c: nat, h: nat, internal: Endpoint, ext: Endpoint) {
    && |states| == |events| + 1 && c < |events| && h < HASH_8BITS && ext.port != 0
    && Shaped(states[c]) && Shaped(states[c + 1]) && FindExternal(states[c].table[h], ext) == None
    && var r := FindExternal(states[c + 1].table[h], ext);
      r.Some? && states[c + 1].table[h][r.value].internal == internal
  }

  /** Event `j` is not a sweep that ends the mapping of event `c`: by its age since its creation, however recent
      its last packet, and by the packets seen since. */
  predicate Spared(states: seq<Nat>, events: seq<Event>, c: nat, j: nat, h: nat, ext: Endpoint)
    requires c <= j < |events| <= |states|
  {
    events[j].SweepAt? ==>
      events[j].now - events[c].now <= TCP_ESTABLISHED_TIMEOUT && !IsFinished(StatsAt(states, events, c, j, h, ext))
  }

  lemma CreatedTracks(states: seq<Nat>, events: seq<Event>, c: nat, h: nat, internal: Endpoint, ext: Endpoint)
    requires Run(states, events) && Created(states, events, c, h, internal, ext)
    ensures Tracks(states[c + 1], h, internal, ext, events[c].now, StatsAt(states, events, c, c + 1, h, ext))
  {
    assert StepOk(states, events, c);
    var n, after, e := states[c], states[c + 1], events[c];
    assert StatsAt(states, events, c, c, h, ext) == NewConnection;
    match e
    case In(p, now) => CreatedByIn(n, p, now, h, ext);
    case Out(p, now) => CreatedByOut(n, p, now, h, ext);
    case SweepAt(now) => SweepAddsNothing(n, now, h, ext);
  }

  lemma SweepAddsNothing(n: Nat, now: int, h: nat, ext: Endpoint)
    requires Shaped(n) && h < HASH_8BITS && FindExternal(n.table[h], ext) == None
    ensures FindExternal(Sweep(n, now, HASH_8BITS).table[h], ext) == None
  {
    SweepFilters(n, now, HASH_8BITS, h);
    var after := Unexpired(n.table[h], now);
    forall k | 0 <= k < |after| ensures after[k].external != ext {
      assert after[k] in n.table[h];
    }
  }

  lemma InAddsOnlyItsOwn(n: Nat, p: Packet, now: int, h: nat, ext: Endpoint)
    requires Shaped(n) && h < HASH_8BITS && FindExternal(n.table[h], ext) == None
    requires Bucket(p.src) != h || p.dst != ext
    ensures FindExternal(TranslateIn(n, p, now).0.table[h], ext) == None
  {
    var b, c := n.table[h], TranslateIn(n, p, now).0.table[h];
    assert forall j :: 0 <= j < |b| && j < |c| ==> c[j].external == b[j].external;
  }

  lemma OutAddsOnlyItsOwn(n: Nat, p: Packet, now: int, h: nat, ext: Endpoint)
    requires Shaped(n) && h < HASH_8BITS && FindExternal(n.table[h], ext) == None
    requires Bucket(p.dst) != h || FindInternal(n.table[h], p.src).Some?
      || TranslateOut(n, p, now).1 != Some(p.(src := ext))
    ensures FindExternal(TranslateOut(n, p, now).0.table[h], ext) == None
  {
    var b, c := n.table[h], TranslateOut(n, p, now).0.table[h];
    assert forall j :: 0 <= j < |b| && j < |c| ==> c[j].external == b[j].external;
  }

  lemma CreatedByIn(n: Nat, p: Packet, now: int, h: nat, ext: Endpoint)
    requires Shaped(n) && h < HASH_8BITS && FindExternal(n.table[h], ext) == None
    requires FindExternal(TranslateIn(n, p, now).0.table[h], ext).Some?
    ensures Bucket(p.src) == h && p.dst == ext
    ensures var b := TranslateIn(n, p, now).0.table[h]; var m := b[FindExternal(b, ext).value];
      m == Mapping(m.remote, m.internal, ext, now, NoteIncoming(NewConnection, p))
  {
    if Bucket(p.src) != h || p.dst != ext {
      InAddsOnlyItsOwn(n, p, now, h, ext);
    }
    var b, c := n.table[h], TranslateIn(n, p, now).0.table[h];
    assert |b| <= |c| && forall j :: 0 <= j < |b| ==> c[j] == b[j];
  }

  lemma CreatedByOut(n: Nat, p: Packet, now: int, h: nat, ext: Endpoint)
    requires Shaped(n) && h < HASH_8BITS && FindExternal(n.table[h], ext) == None
    requires FindExternal(TranslateOut(n, p, now).0.table[h], ext).Some?
    ensures Bucket(p.dst) == h && TranslateOut(n, p, now).1 == Some(p.(src := ext))
    ensures var b := TranslateOut(n, p, now).0.table[h]; var m := b[FindExternal(b, ext).value];
      m == Mapping(m.remote, m.internal, ext, now, NoteOutgoing(NewConnection, p))
  {
    var b, c := n.table[h], TranslateOut(n, p, now).0.table[h];
    if Bucket(p.dst) != h || FindInternal(b, p.src).Some? || TranslateOut(n, p, now).1 != Some(p.(src := ext)) {
      OutAddsOnlyItsOwn(n, p, now, h, ext);
    }
    assert |b| <= |c| && forall j :: 0 <= j < |b| ==> c[j] == b[j];
  }

  lemma EventTracks(n: Nat, e: Event, h: nat, internal: Endpoint, ext: Endpoint, t0: int, conn: Connection)
    requires Tracks(n, h, internal, ext, t0, conn) && Unique(n) && Conserved(n) && ext.port != 0
    requires e.SweepAt? ==> e.now - t0 <= TCP_ESTABLISHED_TIMEOUT && !IsFinished(conn)
    ensures Tracks(Apply(n, e), h, internal, ext, t0, ConnAfter(n, e, h, ext, conn))
  {
    match e
    case In(p, now) => TrackIn(n, p, now, h, internal, ext, t0, conn);
    case Out(p, now) => TrackOut(n, p, now, h, internal, ext, t0, conn);
    case SweepAt(now) => TrackSweep(n, now, h, internal, ext, t0, conn);
  }

  /** While it is spared, a mapping keeps its endpoints and the time of its creation, whatever packets it carries,
      and its statistics are those of the packets seen. */
  lemma {:induction false} MappingLives(states: seq<Nat>, events: seq<Event>, c: nat, b: nat, h: nat,
                                        internal: Endpoint, ext: Endpoint)
    requires Run(states, events) && OutsidePool(states[0].rules) && Created(states, events, c, h, internal, ext)
    requires c < b < |states| && forall j :: c < j < b ==> Spared(states, events, c, j, h, ext)
    ensures Tracks(states[b], h, internal, ext, events[c].now, StatsAt(states, events, c, b, h, ext))
  {
    if b == c + 1 {
      CreatedTracks(states, events, c, h, internal, ext);
    } else {
      MappingLives(states, events, c, b - 1, h, internal, ext);
      assert Spared(states, events, c, b - 1, h, ext) && StepOk(states, events, b - 1);
      PortsConserved(states, events, b - 1);
      UniqueAlways(states, events, b - 1);
      EventTracks(states[b - 1], events[b - 1], h, internal, ext, events[c].now,
        StatsAt(states, events, c, b - 1, h, ext));
    }
  }

  /** The exact life of a mapping: a sweep at `now` leaves it if and only if at most 60 seconds have passed since
      its creation and the packets seen have not finished the flow; afterwards its endpoint is unknown. */
  lemma SweepEndsMapping(states: seq<Nat>, events: seq<Event>, c: nat, j: nat, h: nat, internal: Endpoint,
                         ext: Endpoint)
    requires Run(states, events) && OutsidePool(states[0].rules) && Created(states, events, c, h, internal, ext)
    requires c < j < |events| && events[j].SweepAt? && forall i :: c < i < j ==> Spared(states, events, c, i, h, ext)
    ensures Shaped(states[j + 1])
    ensures FindExternal(states[j + 1].table[h], ext).Some? <==>
      events[j].now - events[c].now <= TCP_ESTABLISHED_TIMEOUT && !IsFinished(StatsAt(states, events, c, j, h, ext))
  {
    MappingLives(states, events, c, j, h, internal, ext);
    assert StepOk(states, events, j);
    PortsConserved(states, events, j + 1);
    UniqueAlways(states, events, j);
    TrackSweep(states[j], events[j].now, h, internal, ext, events[c].now, StatsAt(states, events, c, j, h, ext));
  }

  /** Every mapping with a port of its own was made by some event and has been spared since. */
  lemma {:induction false} MappingHasBirth(states: seq<Nat>, events: seq<Event>, t: nat, h: nat, ext: Endpoint)
      returns (c: nat)
    requires Run(states, events) && OutsidePool(states[0].rules) && t < |states| && h < HASH_8BITS && ext.port != 0
    requires Shaped(states[t]) && FindExternal(states[t].table[h], ext).Some?
    ensures c < t
    ensures Created(states, events, c, h, states[t].table[h][FindExternal(states[t].table[h], ext).value].internal, ext)
    ensures forall j :: c < j < t ==> Spared(states, events, c, j, h, ext)
  {
    assert t > 0;
    PortsConserved(states, events, t - 1);
    var before := FindExternal(states[t - 1].table[h], ext);
    if before == None {
      c := t - 1;
    } else {
      c := MappingHasBirth(states, events, t - 1, h, ext);
      var internal := states[t - 1].table[h][before.value].internal;
      MappingLives(states, events, c, t - 1, h, internal, ext);
      assert StepOk(states, events, t - 1);
      if events[t - 1].SweepAt? {
        SweepEndsMapping(states, events, c, t - 1, h, internal, ext);
      }
      assert Spared(states, events, c, t - 1, h, ext);
      MappingLives(states, events, c, t, h, internal, ext);
    }
  }

  // ---- The round trip ----

  lemma SparedServes(states: seq<Nat>, events: seq<Event>, c: nat, j: nat, h: nat, internal: Endpoint, ext: Endpoint)
    requires Run(states, events) && OutsidePool(states[0].rules) && Created(states, events, c, h, internal, ext)
    requires c < j < |events| && forall i :: c < i <= j ==> Spared(states, events, c, i, h, ext)
    requires Shaped(states[j]) && Serves(states[j].table[h], internal, ext)
    ensures Spares(states[j], events[j], h, internal)
  {
    MappingLives(states, events, c, j, h, internal, ext);
    UniqueAlways(states, events, j);
    assert UniqueBucket(states[j].table[h]) && Spared(states, events, c, j, h, ext);
  }

  lemma {:induction false} ServesWhileSpared(states: seq<Nat>, events: seq<Event>, c: nat, a: nat, b: nat, h: nat,
                                             internal: Endpoint, ext: Endpoint)
    requires Run(states, events) && OutsidePool(states[0].rules) && Created(states, events, c, h, internal, ext)
    requires c <= a < b < |states| && forall i :: c < i < b ==> Spared(states, events, c, i, h, ext)
    requires Shaped(states[a + 1]) && Serves(states[a + 1].table[h], internal, ext)
    ensures Shaped(states[b]) && Serves(states[b].table[h], internal, ext)
  {
    PortsConserved(states, events, b);
    if b > a + 1 {
      ServesWhileSpared(states, events, c, a, b - 1, h, internal, ext);
      SparedServes(states, events, c, b - 1, h, internal, ext);
      assert StepOk(states, events, b - 1);
      ServingPersists(states[b - 1], events[b - 1], h, internal, ext);
    }
  }

  /** The round trip over interleaved runs. The packet of event `a` from an internal endpoint leaves as external
      endpoint `ext`, through the mapping that event `c` made. Until a sweep finds more than 60 seconds passed since
      event `c`, or the flow finished by the packets seen since, every packet to `ext` from its bucket is rewritten
      to the internal endpoint and every packet from that to its bucket leaves as `ext`, whatever other flows, hash
      collisions and sweeps come in between. */
  lemma RoundTrip(states: seq<Nat>, events: seq<Event>, c: nat, a: nat, b: nat, ext: Endpoint)
    requires Run(states, events) && OutsidePool(states[0].rules) && c <= a < b < |events| && events[a].Out?
    requires Created(states, events, c, Bucket(events[a].p.dst), events[a].p.src, ext)
    requires Shaped(states[a])
      && TranslateOut(states[a], events[a].p, events[a].now).1 == Some(events[a].p.(src := ext))
    requires forall j :: c < j < b ==> Spared(states, events, c, j, Bucket(events[a].p.dst), ext)
    ensures var p := events[a].p;
      && Shaped(states[b])
      && (forall q: Packet, now: int :: Bucket(q.src) == Bucket(p.dst) && q.dst == ext ==>
            TranslateIn(states[b], q, now).1 == Some(q.(dst := p.src)))
      && (forall q: Packet, now: int :: q.src == p.src && Bucket(q.dst) == Bucket(p.dst) ==>
            TranslateOut(states[b], q, now).1 == Some(q.(src := ext)))
  {
    var p := events[a].p;
    assert StepOk(states, events, a);
    OutServes(states[a], p, events[a].now);
    PortsConserved(states, events, a + 1);
    ServesWhileSpared(states, events, c, a, b, Bucket(p.dst), p.src, ext);
    UniqueAlways(states, events, b);
    forall q: Packet, now: int | Bucket(q.src) == Bucket(p.dst) && q.dst == ext
      ensures TranslateIn(states[b], q, now).1 == Some(q.(dst := p.src))
    {
      ReplyIsRewritten(states[b], q, now, p.src);
    }
  }

  /** Every outgoing packet that got a port of its own has such a mapping behind it. */
  lemma OutgoingHasBirth(states: seq<Nat>, events: seq<Event>, a: nat, ext: Endpoint) returns (c: nat)
    requires Run(states, events) && OutsidePool(states[0].rules) && a < |events| && events[a].Out? && ext.port != 0
    requires Shaped(states[a])
      && TranslateOut(states[a], events[a].p, events[a].now).1 == Some(events[a].p.(src := ext))
    ensures c <= a && Created(states, events, c, Bucket(events[a].p.dst), events[a].p.src, ext)
    ensures forall j :: c < j <= a ==> Spared(states, events, c, j, Bucket(events[a].p.dst), ext)
  {
    var p := events[a].p;
    assert StepOk(states, events, a);
    OutServes(states[a], p, events[a].now);
    PortsConserved(states, events, a + 1);
    UniqueAlways(states, events, a + 1);
    var b := states[a + 1].table[Bucket(p.dst)];
    assert UniqueBucket(b);
    assert FindExternal(b, ext) == FindInternal(b, p.src);
    c := MappingHasBirth(states, events, a + 1, Bucket(p.dst), ext);
  }

  // ---- The time of the last packet does not count ----

  /** After a first packet at 0 and another at 60 there is one mapping, made at 0. */
  lemma TwoPackets(p: Packet, ext: Endpoint)
    requires ext == Endpoint(0, NAT_PORT_MIN)
    ensures var n1, n2 := Apply(Fresh([]), Out(p, 0)), Apply(Apply(Fresh([]), Out(p, 0)), Out(p, 60));
      && TranslateOut(Fresh([]), p, 0).1 == TranslateOut(n1, p, 60).1 == Some(p.(src := ext))
      && |n2.table[Bucket(p.dst)]| == 1 && n2.rules == []
      && n2.table[Bucket(p.dst)][0].external == ext && n2.table[Bucket(p.dst)][0].internal == p.src
      && n2.table[Bucket(p.dst)][0].updateTime == 0
  {
    var n, h := Fresh([]), Bucket(p.dst);
    assert FreePort(n.taken, NAT_PORT_MIN) == NAT_PORT_MIN;
    var m := Mapping(p.dst, p.src, ext, 0, NoteOutgoing(NewConnection, p));
    assert Apply(n, Out(p, 0)).table[h] == [m];
    assert FindInternal([m], p.src) == Some(0);
  }

  /** An active flow is swept: a packet leaves at 0 and at 60, and the reply comes through; the sweep at 61 removes
      the mapping one second after the last packet from inside, and the next reply is dropped. */
  lemma ActiveFlowIsSwept(p: Packet, q: Packet) returns (states: seq<Nat>, events: seq<Event>)
    requires q.src == p.dst && q.dst == Endpoint(0, NAT_PORT_MIN)
    ensures events == [Out(p, 0), Out(p, 60), SweepAt(61), In(q, 61)] && Run(states, events)
    ensures forall k :: 0 <= k < |states| ==> Shaped(states[k])
    ensures TranslateOut(states[0], p, 0).1 == TranslateOut(states[1], p, 60).1 == Some(p.(src := q.dst))
    ensures TranslateIn(states[2], q, 61).1 == Some(q.(dst := p.src))
    ensures TranslateIn(states[3], q, 61).1 == None
  {
    var n, h := Fresh([]), Bucket(p.dst);
    var n1 := Apply(n, Out(p, 0));
    var n2 := Apply(n1, Out(p, 60));
    var n3 := Apply(n2, SweepAt(61));
    events := [Out(p, 0), Out(p, 60), SweepAt(61), In(q, 61)];
    states := [n, n1, n2, n3, Apply(n3, In(q, 61))];
    forall k | 0 <= k < |events| ensures StepOk(states, events, k) {
    }
    TwoPackets(p, q.dst);
    ReplyIsPassedOn(n2, h, q, p.src);
    SweptAt61(n2, h, q);
  }

  /** The reply to a lone mapping. */
  lemma ReplyIsPassedOn(n: Nat, h: nat, q: Packet, internal: Endpoint)
    requires Shaped(n) && h == Bucket(q.src) && |n.table[h]| == 1
    requires n.table[h][0].external == q.dst && n.table[h][0].internal == internal
    ensures TranslateIn(n, q, 61).1 == Some(q.(dst := internal))
  {
    assert FindExternal(n.table[h], q.dst) == Some(0);
  }

  /** A lone mapping made at 0 is gone after the sweep at 61. */
  lemma SweptAt61(n: Nat, h: nat, q: Packet)
    requires Shaped(n) && h == Bucket(q.src) && n.rules == [] && |n.table[h]| == 1 && n.table[h][0].updateTime == 0
    ensures TranslateIn(Sweep(n, 61, HASH_8BITS), q, 61).1 == None
  {
    SweepFilters(n, 61, HASH_8BITS, h);
    assert Unexpired(n.table[h], 61) == [];
  }
}
