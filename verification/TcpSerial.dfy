/** 32-bit serial comparison of sequence numbers (12-tcp_stack/include/tcp.h). */
module TcpSerial {
  import opened MachineInts

  /** less_than_32b, with the signed subtraction wrapping as two's complement does. */
  predicate LessThan32(a: u32, b: u32) { Int32(Int32(a) - Int32(b)) < 0 }

  predicate LessOrEqual32(a: u32, b: u32) { Int32(Int32(a) - Int32(b)) <= 0 }

  /** Sequence numbers of stream positions less than 2^31 apart compare as the positions do, across
      any number of wrap-arounds. */
  lemma SerialOrderIsStreamOrder(isn: u32, x: nat, y: nat)
    requires -TWO31 < x - y < TWO31
    ensures LessThan32(U32(isn + x), U32(isn + y)) <==> x < y
    ensures LessOrEqual32(U32(isn + x), U32(isn + y)) <==> x <= y
    ensures U32(isn + x) == U32(isn + y) <==> x == y
  {
    var a, b := U32(isn + x), U32(isn + y);
    WrappedDifference(isn + x, isn + y);
    assert Int32(Int32(a) - Int32(b)) == x - y;
  }

  lemma WrappedDifference(p: int, q: int)
    requires -TWO31 < p - q < TWO31
    ensures Int32(Int32(U32(p)) - Int32(U32(q))) == p - q
  {
    var k := WrapIsShift(p);
    var l := WrapIsShift(q);
    WrapShift(p - q, k - l);
  }

  /** At a distance of exactly 2^31 each number counts as less than the other: the bound is exact. */
  lemma SerialOrderFailsAtHalf(isn: u32, x: nat)
    ensures LessThan32(U32(isn + x), U32(isn + x + TWO31)) && LessThan32(U32(isn + x + TWO31), U32(isn + x))
  {
    var k := WrapIsShift(isn + x);
    var l := WrapIsShift(isn + x + TWO31);
    WrapShift(-TWO31, k - l);
    WrapShift(TWO31, l - k);
  }
}
