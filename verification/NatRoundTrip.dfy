/** What an outgoing packet is rewritten to leads replies back, for as long as its mapping is spared. */
module NatRoundTrip {
  import opened MachineInts
  import opened Options
  import opened NatTable
  import opened NatTheorems

  // ---- External endpoints are unique within a bucket ----

  predicate UniqueBucket(b: seq<Mapping>) {
    forall j, k :: 0 <= j < k < |b| && b[j].external == b[k].external ==> b[j].external.port == 0
  }

  ghost predicate Unique(n: Nat) {
    Shaped(n) && forall h {:trigger UniqueBucket(n.table[h])} :: 0 <= h < HASH_8BITS ==> UniqueBucket(n.table[h])
  }

  /** A port that no mapping of the table uses is no port of this bucket either. */
  lemma UnusedInBucket(table: seq<seq<Mapping>>, h: nat, port: int)
    requires h < |table| && CountTable(table, port) == 0
    ensures forall k :: 0 <= k < |table[h]| ==> table[h][k].external.port != port
  {
    CountBucketChange(table, h, [], port);
    forall k | 0 <= k < |table[h]| ensures table[h][k].external.port != port {
      CountPositive(table[h], k);
    }
  }

  lemma OutKeepsUnique(n: Nat, p: Packet, now: int)
    requires Conserved(n) && Unique(n)
    ensures Unique(TranslateOut(n, p, now).0)
  {
    var h := Bucket(p.dst);
    assert UniqueBucket(n.table[h]);
    var after := TranslateOut(n, p, now).0;
    if FindInternal(n.table[h], p.src) == None {
      var port := AllocPort(n.taken).1;
      if port != 0 {
        assert PortOk(n.table, n.taken, port);
        UnusedInBucket(n.table, h, port);
      }
    }
    assert UniqueBucket(after.table[h]);
    forall g | 0 <= g < HASH_8BITS ensures UniqueBucket(after.table[g]) {
      assert UniqueBucket(n.table[g]);
      assert g != h ==> after.table[g] == n.table[g];
    }
  }

  lemma InKeepsUnique(n: Nat, p: Packet, now: int)
    requires Unique(n)
    ensures Unique(TranslateIn(n, p, now).0)
  {
    var h := Bucket(p.src);
    assert UniqueBucket(n.table[h]);
    var after := TranslateIn(n, p, now).0;
    assert UniqueBucket(after.table[h]);
    forall g | 0 <= g < HASH_8BITS ensures UniqueBucket(after.table[g]) {
      assert UniqueBucket(n.table[g]);
      assert g != h ==> after.table[g] == n.table[g];
    }
  }

  /** The sweep of a bucket keeps, in order, exactly the mappings that have not expired. */
  function Unexpired(b: seq<Mapping>, now: int): (r: seq<Mapping>)
    ensures forall k :: 0 <= k < |r| ==> r[k] in b && !Expired(r[k], now)
    ensures forall m :: m in b && !Expired(m, now) ==> m in r
  {
    if b == [] then []
    else if Expired(b[0], now) then Unexpired(b[1..], now)
    else [b[0]] + Unexpired(b[1..], now)
  }

  lemma {:induction false} SweepBucketFilters(b: seq<Mapping>, taken: seq<bool>, now: int)
    requires |taken| == TWO16
    ensures SweepBucket(b, taken, now).0 == Unexpired(b, now)
  {
    if b != [] {
      SweepBucketFilters(b[1..], taken, now);
      SweepBucketFilters(b[1..], taken[b[0].external.port := false], now);
    }
  }

  lemma {:induction false} SweepFilters(n: Nat, now: int, i: nat, h: nat)
    requires Shaped(n) && i <= HASH_8BITS && h < HASH_8BITS
    ensures Sweep(n, now, i).table[h] == if h < i then Unexpired(n.table[h], now) else n.table[h]
  {
    if i > 0 {
      var m := Sweep(n, now, i - 1);
      SweepFilters(n, now, i - 1, h);
      SweepBucketFilters(m.table[i - 1], m.taken, now);
    }
  }

  lemma {:induction false} FilterKeepsUnique(b: seq<Mapping>, now: int)
    requires UniqueBucket(b)
    ensures UniqueBucket(Unexpired(b, now))
  {
    if b != [] {
      FilterKeepsUnique(b[1..], now);
      var rest := Unexpired(b[1..], now);
      forall k | 0 <= k < |rest| && rest[k].external == b[0].external ensures b[0].external.port == 0 {
        assert rest[k] in b[1..];
      }
    }
  }

  lemma {:induction false} UniqueAlways(states: seq<Nat>, events: seq<Event>, k: nat)
    requires Run(states, events) && OutsidePool(states[0].rules) && k < |states|
    ensures Unique(states[k])
  {
    if k > 0 {
      UniqueAlways(states, events, k - 1);
      PortsConserved(states, events, k - 1);
      assert StepOk(states, events, k - 1);
      match events[k - 1]
      case In(p, now) => InKeepsUnique(states[k - 1], p, now);
      case Out(p, now) => OutKeepsUnique(states[k - 1], p, now);
      case SweepAt(now) =>
        forall h | 0 <= h < HASH_8BITS ensures UniqueBucket(states[k].table[h]) {
          assert UniqueBucket(states[k - 1].table[h]);
          SweepFilters(states[k - 1], now, HASH_8BITS, h);
          FilterKeepsUnique(states[k - 1].table[h], now);
        }
    }
  }

  // ---- The life of a mapping ----

  /** Packets from `internal` that fall into the bucket are rewritten to `external`. */
  predicate Serves(b: seq<Mapping>, internal: Endpoint, external: Endpoint) {
    var r := FindInternal(b, internal);
    r.Some? && b[r.value].external == external
  }

  /** The event is not a sweep that finds the serving mapping of bucket `h` expired. */
  predicate Spares(n: Nat, e: Event, h: nat, internal: Endpoint)
    requires Shaped(n) && h < HASH_8BITS
  {
    var r := FindInternal(n.table[h], internal);
    e.SweepAt? && r.Some? ==> !Expired(n.table[h][r.value], e.now)
  }

  lemma {:induction false} FindIsFirst(b: seq<Mapping>, internal: Endpoint, k: nat)
    requires k < |b| && b[k].internal == internal && forall j :: 0 <= j < k ==> b[j].internal != internal
    ensures FindInternal(b, internal) == Some(k)
  {
  }

  lemma ServesBehind(m: Mapping, rest: seq<Mapping>, internal: Endpoint, external: Endpoint)
    requires m.internal != internal && Serves(rest, internal, external)
    ensures Serves([m] + rest, internal, external)
  {
    FindIsFirst([m] + rest, internal, FindInternal(rest, internal).value + 1);
  }

  lemma {:induction false} FilterKeepsServing(b: seq<Mapping>, now: int, internal: Endpoint)
    requires var r := FindInternal(b, internal); r.Some? && !Expired(b[r.value], now)
    ensures Serves(Unexpired(b, now), internal, b[FindInternal(b, internal).value].external)
  {
    var k := FindInternal(b, internal).value;
    if k == 0 {
      FindIsFirst(Unexpired(b, now), internal, 0);
    } else {
      FindIsFirst(b[1..], internal, k - 1);
      FilterKeepsServing(b[1..], now, internal);
      if !Expired(b[0], now) {
        ServesBehind(b[0], Unexpired(b[1..], now), internal, b[k].external);
      }
    }
  }

  /** `after` keeps the endpoints of the mappings of `b` in place. */
  predicate Extends(b: seq<Mapping>, after: seq<Mapping>) {
    |b| <= |after| && forall k :: 0 <= k < |b| ==>
      after[k].internal == b[k].internal && after[k].external == b[k].external
  }

  lemma InExtends(n: Nat, p: Packet, now: int, h: nat)
    requires Shaped(n) && h < HASH_8BITS
    ensures Extends(n.table[h], TranslateIn(n, p, now).0.table[h])
  {
    var g := Bucket(p.src);
    match FindExternal(n.table[g], p.dst)
    case Some(k) => assert h != g ==> TranslateIn(n, p, now).0.table[h] == n.table[h];
    case None => assert h != g ==> TranslateIn(n, p, now).0.table[h] == n.table[h];
  }

  lemma OutExtends(n: Nat, p: Packet, now: int, h: nat)
    requires Shaped(n) && h < HASH_8BITS
    ensures Extends(n.table[h], TranslateOut(n, p, now).0.table[h])
  {
    var g := Bucket(p.dst);
    match FindInternal(n.table[g], p.src)
    case Some(k) => assert h != g ==> TranslateOut(n, p, now).0.table[h] == n.table[h];
    case None => assert h != g ==> TranslateOut(n, p, now).0.table[h] == n.table[h];
  }

  lemma ExtensionServes(b: seq<Mapping>, after: seq<Mapping>, internal: Endpoint, external: Endpoint)
    requires Extends(b, after) && Serves(b, internal, external)
    ensures Serves(after, internal, external)
  {
    FindIsFirst(after, internal, FindInternal(b, internal).value);
  }

  lemma ServingPersists(n: Nat, e: Event, h: nat, internal: Endpoint, external: Endpoint)
    requires Shaped(n) && h < HASH_8BITS && Serves(n.table[h], internal, external) && Spares(n, e, h, internal)
    ensures Serves(Apply(n, e).table[h], internal, external)
  {
    match e
    case In(p, now) =>
      InExtends(n, p, now, h);
      ExtensionServes(n.table[h], Apply(n, e).table[h], internal, external);
    case Out(p, now) =>
      OutExtends(n, p, now, h);
      ExtensionServes(n.table[h], Apply(n, e).table[h], internal, external);
    case SweepAt(now) =>
      SweepFilters(n, now, HASH_8BITS, h);
      FilterKeepsServing(n.table[h], now, internal);
  }

  /** A sweep that finds the mapping expired forgets its external endpoint. */
  lemma ExpiredIsForgotten(n: Nat, now: int, h: nat, k: nat)
    requires Unique(n) && h < HASH_8BITS && k < |n.table[h]| && n.table[h][k].external.port != 0
    ensures FindExternal(Sweep(n, now, HASH_8BITS).table[h], n.table[h][k].external) == None
      <==> Expired(n.table[h][k], now)
  {
    SweepFilters(n, now, HASH_8BITS, h);
    var b, after := n.table[h], Sweep(n, now, HASH_8BITS).table[h];
    assert UniqueBucket(b);
    var r := FindExternal(after, b[k].external);
    if r.Some? {
      assert after[r.value] in b;
      var j :| 0 <= j < |b| && b[j] == after[r.value];
      assert j == k;
    }
  }

  /** What a packet from inside is rewritten to is served from then on. */
  lemma OutServes(n: Nat, p: Packet, now: int)
    requires Shaped(n)
    ensures var (after, out) := TranslateOut(n, p, now);
      out.Some? && out.value.dst == p.dst && Serves(after.table[Bucket(p.dst)], p.src, out.value.src)
  {
    var h := Bucket(p.dst);
    var after := TranslateOut(n, p, now).0;
    match FindInternal(n.table[h], p.src)
    case Some(k) => FindIsFirst(after.table[h], p.src, k);
    case None => FindIsFirst(after.table[h], p.src, |n.table[h]|);
  }

  /** While the mapping serves, a packet from the remote to its external endpoint reaches the internal one. */
  lemma ReplyIsRewritten(n: Nat, q: Packet, now: int, internal: Endpoint)
    requires Unique(n) && q.dst.port != 0 && Serves(n.table[Bucket(q.src)], internal, q.dst)
    ensures TranslateIn(n, q, now).1 == Some(q.(dst := internal))
  {
    var b := n.table[Bucket(q.src)];
    assert UniqueBucket(b);
    var k := FindInternal(b, internal).value;
    assert b[k].external == q.dst;
    var r := FindExternal(b, q.dst);
    assert r == Some(k);
  }
}
