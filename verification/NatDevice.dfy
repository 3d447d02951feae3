/** The translator as the C code keeps it: an array of mapping lists and an array of port marks,
    changed in place by loops (08-nat/nat.c). */
module NatDevice {
  import opened MachineInts
  import opened Options
  import opened NatTable

  class Translator {
    const table: array<seq<Mapping>>
    const taken: array<bool>
    const rules: seq<Rule>
    const externalIp: Addr

    ghost predicate Valid()
      reads this
    {
      table.Length == HASH_8BITS && taken.Length == TWO16
    }

    function View(): (n: Nat)
      reads this, table, taken
    {
      Nat(table[..], taken[..], rules, externalIp)
    }

    /** nat_init, with the rules and the external address read from the configuration. */
    constructor (rules: seq<Rule>, externalIp: Addr)
      ensures Valid() && fresh(table) && fresh(taken)
      ensures View() == Nat(seq(HASH_8BITS, _ => []), seq(TWO16, _ => false), rules, externalIp)
    {
      this.rules, this.externalIp := rules, externalIp;
      table := new seq<Mapping>[HASH_8BITS](_ => []);
      taken := new bool[TWO16](_ => false);
      new;
      assert table[..] == seq(HASH_8BITS, _ => []);
      assert taken[..] == seq(TWO16, _ => false);
    }

    /** alloc_port. */
    method AllocatePort() returns (port: u16)
      requires Valid()
      modifies taken
      ensures (taken[..], port) == AllocPort(old(taken[..]))
    {
      var i := NAT_PORT_MIN;
      while i < NAT_PORT_MAX
        invariant NAT_PORT_MIN <= i <= NAT_PORT_MAX
        invariant FreePort(taken[..], NAT_PORT_MIN) == FreePort(taken[..], i)
        invariant taken[..] == old(taken[..])
      {
        if !taken[i] {
          taken[i] := true;
          return i;
        }
        i := i + 1;
      }
      return 0;
    }

    /** The lookup of a packet from outside: the list is scanned for the external endpoint. */
    method LookupExternal(h: nat, e: Endpoint) returns (k: nat)
      requires Valid() && h < HASH_8BITS
      ensures k <= |table[h]| && FindExternal(table[h], e) == if k < |table[h]| then Some(k) else None
    {
      k := 0;
      while k < |table[h]| && table[h][k].external != e
        invariant k <= |table[h]| && forall j :: 0 <= j < k ==> table[h][j].external != e
      {
        k := k + 1;
      }
    }

    method LookupInternal(h: nat, e: Endpoint) returns (k: nat)
      requires Valid() && h < HASH_8BITS
      ensures k <= |table[h]| && FindInternal(table[h], e) == if k < |table[h]| then Some(k) else None
    {
      k := 0;
      while k < |table[h]| && table[h][k].internal != e
        invariant k <= |table[h]| && forall j :: 0 <= j < k ==> table[h][j].internal != e
      {
        k := k + 1;
      }
    }

    method LookupRule(e: Endpoint) returns (k: nat)
      ensures k <= |rules| && FindRule(rules, e) == if k < |rules| then Some(k) else None
    {
      k := 0;
      while k < |rules| && rules[k].external != e
        invariant k <= |rules| && forall j :: 0 <= j < k ==> rules[j].external != e
      {
        k := k + 1;
      }
    }

    /** The incoming half of do_translation. */
    method Incoming(p: Packet, now: int) returns (out: Option<Packet>)
      requires Valid()
      modifies table
      ensures (View(), out) == TranslateIn(old(View()), p, now)
    {
      var h := Bucket(p.src);
      var k := LookupExternal(h, p.dst);
      if k == |table[h]| {
        var r := LookupRule(p.dst);
        if r == |rules| {
          return None;
        }
        table[h] := table[h] + [Mapping(p.src, rules[r].internal, rules[r].external, now, NewConnection)];
      }
      var m := table[h][k];
      out := Some(p.(dst := m.internal));
      table[h] := table[h][k := m.(conn := NoteIncoming(m.conn, p))];
    }

    /** The outgoing half of do_translation. */
    method Outgoing(p: Packet, now: int) returns (out: Option<Packet>)
      requires Valid()
      modifies table, taken
      ensures (View(), out) == TranslateOut(old(View()), p, now)
    {
      var h := Bucket(p.dst);
      var k := LookupInternal(h, p.src);
      if k == |table[h]| {
        var port := AllocatePort();
        table[h] := table[h] + [Mapping(p.dst, p.src, Endpoint(externalIp, port), now, NewConnection)];
      }
      var m := table[h][k];
      out := Some(p.(src := m.external));
      table[h] := table[h][k := m.(conn := NoteOutgoing(m.conn, p))];
    }

    /** The inner loop of nat_timeout: one list. */
    method SweepList(h: nat, now: int)
      requires Valid() && h < HASH_8BITS
      modifies table, taken
      ensures (table[h], taken[..]) == SweepBucket(old(table[h]), old(taken[..]), now)
      ensures forall j :: 0 <= j < HASH_8BITS && j != h ==> table[j] == old(table[j])
    {
      var b, kept := table[h], [];
      assert b[0..] == b && kept + SweepBucket(b, taken[..], now).0 == SweepBucket(b, taken[..], now).0;
      for k := 0 to |b|
        invariant table[..] == old(table[..])
        invariant var r := SweepBucket(b[k..], taken[..], now);
          (kept + r.0, r.1) == SweepBucket(b, old(taken[..]), now)
      {
        assert b[k..][1..] == b[k + 1..] && b[k..][0] == b[k];
        if Expired(b[k], now) {
          taken[b[k].external.port] := false;
        } else {
          assert kept + ([b[k]] + SweepBucket(b[k + 1..], taken[..], now).0)
            == (kept + [b[k]]) + SweepBucket(b[k + 1..], taken[..], now).0;
          kept := kept + [b[k]];
        }
      }
      assert b[|b|..] == [] && SweepBucket([], taken[..], now) == ([], taken[..]);
      assert kept + [] == kept;
      table[h] := kept;
    }

    /** One pass of nat_timeout. */
    method SweepTable(now: int)
      requires Valid()
      modifies table, taken
      ensures View() == Sweep(old(View()), now, HASH_8BITS)
    {
      for i := 0 to HASH_8BITS
        invariant View() == Sweep(old(View()), now, i)
      {
        ghost var before := View();
        SweepList(i, now);
        assert table[..] == before.table[i := table[i]];
      }
    }
  }
}
