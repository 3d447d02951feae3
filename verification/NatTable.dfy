/** Address translation with a hash table of mappings and a pool of ports (08-nat/nat.c). */
module NatTable {
  import opened MachineInts
  import opened Options

  type Addr = bv32

  const HASH_8BITS := 256
  const NAT_PORT_MIN := 12345
  const NAT_PORT_MAX := 23456  // one past the last port of the pool
  const TCP_ESTABLISHED_TIMEOUT := 60
  const TCP_FIN := 0x01
  const TCP_ACK := 0x10

  datatype Endpoint = Endpoint(ip: Addr, port: u16)

  datatype Packet = Packet(src: Endpoint, dst: Endpoint, seqNum: u32, ack: u32, flags: u8)

  datatype Connection = Connection(internalFin: bool, externalFin: bool,
                                   internalSeqEnd: u32, externalSeqEnd: u32, internalAck: u32, externalAck: u32)

  datatype Mapping = Mapping(remote: Endpoint, internal: Endpoint, external: Endpoint, updateTime: int,
    conn: Connection)

  datatype Rule = Rule(external: Endpoint, internal: Endpoint)

  datatype Nat = Nat(table: seq<seq<Mapping>>, taken: seq<bool>, rules: seq<Rule>, externalIp: Addr)

  predicate Shaped(n: Nat) { |n.table| == HASH_8BITS && |n.taken| == TWO16 }

  predicate InPool(port: int) { NAT_PORT_MIN <= port < NAT_PORT_MAX }

  function ToByte(x: int): bv8
    requires 0 <= x < 0x100
  {
    x as bv8
  }

  /** hash8 of the six bytes of the remote address and port. */
  function Bucket(e: Endpoint): (h: nat)
    ensures h < HASH_8BITS
  {
    var ip := e.ip;
    var h: bv8 := ((ip & 0xFF) as bv8) ^ (((ip >> 8) & 0xFF) as bv8)
                  ^ (((ip >> 16) & 0xFF) as bv8) ^ ((ip >> 24) as bv8)
                  ^ ToByte(e.port % 0x100) ^ ToByte(e.port / 0x100);
    h as nat
  }

  const NewConnection := Connection(false, false, 0, 0, 0, 0)

  /** The first mapping of the bucket with this external endpoint. */
  function FindExternal(b: seq<Mapping>, e: Endpoint): (r: Option<nat>)
    ensures r.Some? ==> r.value < |b| && b[r.value].external == e && forall k :: 0 <= k < r.value ==> b[k].external != e
    ensures r == None ==> forall k :: 0 <= k < |b| ==> b[k].external != e
  {
    FirstIndex(b, (m: Mapping) => m.external == e)
  }

  /** The first mapping of the bucket with this internal endpoint. */
  function FindInternal(b: seq<Mapping>, e: Endpoint): (r: Option<nat>)
    ensures r.Some? ==> r.value < |b| && b[r.value].internal == e && forall k :: 0 <= k < r.value ==> b[k].internal != e
    ensures r == None ==> forall k :: 0 <= k < |b| ==> b[k].internal != e
  {
    FirstIndex(b, (m: Mapping) => m.internal == e)
  }

  function FindRule(rules: seq<Rule>, e: Endpoint): (r: Option<nat>)
    ensures r.Some? ==> r.value < |rules| && rules[r.value].external == e && forall k :: 0 <= k < r.value ==>
      rules[k].external != e
    ensures r == None ==> forall k :: 0 <= k < |rules| ==> rules[k].external != e
  {
    FirstIndex(rules, (r: Rule) => r.external == e)
  }

  /** The scan of alloc_port from port `i` on: the least free port, or 0. */
  function FreePort(taken: seq<bool>, i: nat): (p: u16)
    requires |taken| == TWO16 && NAT_PORT_MIN <= i <= NAT_PORT_MAX
    ensures p != 0 ==> i <= p < NAT_PORT_MAX && !taken[p] && forall q :: i <= q < p ==> taken[q]
    ensures p == 0 ==> forall q :: i <= q < NAT_PORT_MAX ==> taken[q]
    decreases NAT_PORT_MAX - i
  {
    if i == NAT_PORT_MAX then 0
    else if !taken[i] then i
    else FreePort(taken, i + 1)
  }

  /** alloc_port marks the port it returns. */
  function AllocPort(taken: seq<bool>): (seq<bool>, u16)
    requires |taken| == TWO16
  {
    var p := FreePort(taken, NAT_PORT_MIN);
    (if p == 0 then taken else taken[p := true], p)
  }

  function Max(a: u32, b: u32): u32 { if a > b then a else b }

  /** Statistics after a packet from outside: the FIN mark follows the latest packet. */
  function NoteIncoming(c: Connection, p: Packet): Connection {
    c.(externalFin := p.flags == TCP_FIN,
       externalSeqEnd := Max(p.seqNum, c.externalSeqEnd),
       externalAck := if p.ack > c.externalAck && p.flags == TCP_ACK then p.ack else c.externalAck)
  }

  /** Statistics after a packet from inside: the FIN mark stays. */
  function NoteOutgoing(c: Connection, p: Packet): Connection {
    c.(internalFin := p.flags == TCP_FIN || c.internalFin,
       internalSeqEnd := Max(p.seqNum, c.internalSeqEnd),
       internalAck := if p.ack > c.internalAck && p.flags == TCP_ACK then p.ack else c.internalAck)
  }

  /** The shape, the rules and the external address never change. */
  predicate Kin(n: Nat, n': Nat) { Shaped(n') && n'.rules == n.rules && n'.externalIp == n.externalIp }

  function PutBucket(n: Nat, h: nat, b: seq<Mapping>): (r: Nat)
    requires Shaped(n) && h < HASH_8BITS
    ensures Kin(n, r)
  {
    n.(table := n.table[h := b])
  }

  /** The mapping `k` of bucket `h` rewrites an incoming packet. */
  function ForwardIn(n: Nat, h: nat, k: nat, p: Packet): (r: (Nat, Option<Packet>))
    requires Shaped(n) && h < HASH_8BITS && k < |n.table[h]|
    ensures Kin(n, r.0)
  {
    var m := n.table[h][k];
    (PutBucket(n, h, n.table[h][k := m.(conn := NoteIncoming(m.conn, p))]), Some(p.(dst := m.internal)))
  }

  function ForwardOut(n: Nat, h: nat, k: nat, p: Packet): (r: (Nat, Option<Packet>))
    requires Shaped(n) && h < HASH_8BITS && k < |n.table[h]|
    ensures Kin(n, r.0)
  {
    var m := n.table[h][k];
    (PutBucket(n, h, n.table[h][k := m.(conn := NoteOutgoing(m.conn, p))]), Some(p.(src := m.external)))
  }

  function AddMapping(n: Nat, h: nat, m: Mapping): Nat
    requires Shaped(n) && h < HASH_8BITS
  {
    PutBucket(n, h, n.table[h] + [m])
  }

  /** do_translation for a packet from outside: a known mapping, else a DNAT rule, else the packet is dropped. */
  function TranslateIn(n: Nat, p: Packet, now: int): (r: (Nat, Option<Packet>))
    requires Shaped(n)
    ensures Kin(n, r.0)
  {
    var h := Bucket(p.src);
    match FindExternal(n.table[h], p.dst)
    case Some(k) => ForwardIn(n, h, k, p)
    case None =>
      match FindRule(n.rules, p.dst)
      case None => (n, None)
      case Some(r) =>
        var m := Mapping(p.src, n.rules[r].internal, n.rules[r].external, now, NewConnection);
        ForwardIn(AddMapping(n, h, m), h, |n.table[h]|, p)
  }

  /** do_translation for a packet from inside: a known mapping, else a new one with a port of the pool. */
  function TranslateOut(n: Nat, p: Packet, now: int): (r: (Nat, Option<Packet>))
    requires Shaped(n)
    ensures Kin(n, r.0)
  {
    var h := Bucket(p.dst);
    match FindInternal(n.table[h], p.src)
    case Some(k) => ForwardOut(n, h, k, p)
    case None =>
      var (taken, port) := AllocPort(n.taken);
      var m := Mapping(p.dst, p.src, Endpoint(n.externalIp, port), now, NewConnection);
      ForwardOut(AddMapping(n.(taken := taken), h, m), h, |n.table[h]|, p)
  }

  predicate IsFinished(c: Connection) {
    c.internalFin && c.externalFin && c.internalAck >= c.externalSeqEnd && c.externalAck >= c.internalSeqEnd
  }

  /** The time of a mapping is set when it is made and never again. */
  predicate Expired(m: Mapping, now: int) {
    IsFinished(m.conn) || now - m.updateTime > TCP_ESTABLISHED_TIMEOUT
  }

  /** The sweep of one bucket: expired mappings go and their ports are cleared. */
  function SweepBucket(b: seq<Mapping>, taken: seq<bool>, now: int): (r: (seq<Mapping>, seq<bool>))
    requires |taken| == TWO16
    ensures |r.1| == TWO16
    ensures forall p :: 0 <= p < TWO16 && r.1[p] ==> taken[p]
  {
    if b == [] then ([], taken)
    else if Expired(b[0], now) then SweepBucket(b[1..], taken[b[0].external.port := false], now)
    else
      var r := SweepBucket(b[1..], taken, now);
      ([b[0]] + r.0, r.1)
  }

  /** The sweep of the first `i` buckets. */
  function Sweep(n: Nat, now: int, i: nat): (r: Nat)
    requires Shaped(n) && i <= HASH_8BITS
    ensures Kin(n, r)
    ensures forall j :: i <= j < HASH_8BITS ==> r.table[j] == n.table[j]
  {
    if i == 0 then n
    else
      var m := Sweep(n, now, i - 1);
      var r := SweepBucket(m.table[i - 1], m.taken, now);
      PutBucket(m.(taken := r.1), i - 1, r.0)
  }
}
