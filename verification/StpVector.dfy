/** Priority vectors and their comparison (04_stp/stp.c). */
module StpVector {
  import opened MachineInts

  /** A config message after byte-order conversion: `cost` holds 32 bits, `portId` 16. */
  datatype Config = Config(root: nat, cost: int, switchId: nat, portId: int)

  /** A port: its own id and the best config it has seen. `cost` is a C `int`. */
  datatype Port = Port(portId: int, root: nat, cost: int, switchId: nat, port: int)

  /** True when the config beats the vector stored on the port. */
  predicate ConfigPriorityCmp(p: Port, c: Config) {
    if p.root != c.root then p.root > c.root
    else if U32(p.cost) != c.cost then U32(p.cost) > c.cost
    else if p.switchId != c.switchId then p.switchId > c.switchId
    else if p.port != c.portId then p.port > c.portId
    else false
  }

  /** True when the vector of `q` beats the vector of `p`. */
  predicate PortPriorityCmp(p: Port, q: Port) {
    if p.root != q.root then p.root > q.root
    else if p.cost != q.cost then p.cost > q.cost
    else if p.switchId != q.switchId then p.switchId > q.switchId
    else if p.port != q.port then p.port > q.port
    else false
  }

  function ReplacePortConfig(p: Port, c: Config): Port {
    p.(root := c.root, cost := Int32(c.cost), switchId := c.switchId, port := c.portId)
  }

  predicate SameVector(p: Port, q: Port) {
    p.root == q.root && p.cost == q.cost && p.switchId == q.switchId && p.port == q.port
  }

  /** The vector of `p` is no worse than the vector of `q`. */
  predicate AtMost(p: Port, q: Port) {
    !PortPriorityCmp(p, q)
  }

  /** Lexicographic order on (root, cost) pairs: the part of a vector that a switch believes. */
  predicate PairLe(r1: nat, c1: int, r2: nat, c2: int) {
    r1 < r2 || (r1 == r2 && c1 <= c2)
  }

  predicate PairLess(r1: nat, c1: int, r2: nat, c2: int) {
    r1 < r2 || (r1 == r2 && c1 < c2)
  }

  /** A config is accepted exactly when the vector it would install is strictly better, as long
      as both costs are below 2^31: the C code compares them unsigned and stores them signed. */
  lemma AcceptanceIsStrictImprovement(p: Port, c: Config)
    requires 0 <= p.cost < TWO31 && 0 <= c.cost < TWO31
    ensures ConfigPriorityCmp(p, c) <==> PortPriorityCmp(p, ReplacePortConfig(p, c))
  {
    assert U32(p.cost) == p.cost;
    assert Int32(c.cost) == c.cost;
  }
}
