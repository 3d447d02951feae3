/** The Internet checksum in its two forms: folded twice (06-router/include/checksum.h) and folded until
    it fits (08-nat/include/checksum.h). Buffers are bytes read as little-endian words. */
module Checksum {
  import opened MachineInts

  const ONES := 0xFFFF
  const MAX_WORDS := 65537  // words that can be added to 0 without overflow of 32 bits

  function Word(lo: u8, hi: u8): u16 { lo + 0x100 * hi }

  /** The unbounded sum of the words of the buffer, a trailing odd byte counting as one more word. */
  function Total(b: seq<u8>): nat {
    if b == [] then 0 else if |b| == 1 then b[0] else Word(b[0], b[1]) + Total(b[2..])
  }

  /** The high half added to the low half. */
  function Fold(s: nat): nat { s / TWO16 + s % TWO16 }

  /** The representative of `s` modulo 65535 that folding ends in: 0 only for 0, else 1 to 65535. */
  function Residue(s: nat): (r: u16) {
    if s == 0 then 0 else (s - 1) % ONES + 1
  }

  lemma ModShift(x: nat, q: nat)
    ensures (x + q * ONES) % ONES == x % ONES
  {
  }

  lemma FoldKeepsResidue(s: nat)
    ensures Residue(Fold(s)) == Residue(s)
    ensures s >= TWO16 ==> Fold(s) < s
  {
    var q := s / TWO16;
    assert s == Fold(s) + q * ONES;
    if s > 0 {
      ModShift(Fold(s) - 1, q);
    }
  }

  lemma SmallResidue(s: nat)
    requires s < TWO16
    ensures Residue(s) == s
  {
  }

  lemma FitsAsIs(x: nat)
    requires x < TWO32
    ensures U32(x) == x
  {
  }

  lemma SecondFold(f: nat)
    requires f < 2 * TWO16 - 1
    ensures U16(U32(f + f / TWO16)) == Residue(f)
  {
    FitsAsIs(f + f / TWO16);
    if f < TWO16 {
      SmallResidue(f);
    } else {
      FoldKeepsResidue(f);
      assert f / TWO16 == 1 && Fold(f) == f - ONES;
      SmallResidue(Fold(f));
    }
  }

  /** Two folds are enough for 32 bits: the carry of the second one is lost with the upper half. */
  function FoldedTwice(s: u32): (r: u16)
    ensures r == Residue(s)
  {
    FoldKeepsResidue(s);
    SecondFold(Fold(s));
    var once := Fold(s);
    U16(U32(once + once / TWO16))
  }

  lemma {:induction false} OddByteLast(b: seq<u8>)
    requires |b| % 2 == 1
    ensures Total(b) == Total(b[..|b| - 1]) + b[|b| - 1]
  {
    if |b| > 1 {
      OddByteLast(b[2..]);
      assert b[..|b| - 1][2..] == b[2..][..|b| - 3];
    }
  }

  /** The accumulator once everything has been added, modulo 2^32. */
  function Finished(acc: u32, rest: seq<u8>): u32 { U32(acc + Total(rest)) }

  /** One addition carries out of 32 bits at most once. */
  lemma Carry(x: nat) returns (k: nat)
    requires x < 2 * TWO32
    ensures U32(x) == x - k * TWO32
  {
    ModOnce(x, TWO32);
    k := if x < TWO32 then 0 else 1;
  }

  /** A 32-bit value that differs from a sum by multiples of 2^32 is the sum modulo 2^32. */
  lemma IsWrapped(acc: u32, wraps: nat, total: nat)
    requires acc + wraps * TWO32 == total
    ensures acc == U32(total)
  {
  }

  /** What both loops keep: the accumulator, its lost carries and the words still to come make up the total. */
  predicate Balanced(acc: u32, wraps: nat, b: seq<u8>, i: nat, total: nat) {
    i <= |b| && acc + wraps * TWO32 + Total(b[i..]) == total
  }

  lemma TakeWord(acc: u32, wraps: nat, b: seq<u8>, i: nat, total: nat) returns (wraps': nat)
    requires i + 2 <= |b| && Balanced(acc, wraps, b, i, total)
    ensures Balanced(U32(acc + Word(b[i], b[i + 1])), wraps', b, i + 2, total)
  {
    assert b[i..][2..] == b[i + 2..];
    var k := Carry(acc + Word(b[i], b[i + 1]));
    wraps' := wraps + k;
  }

  lemma TakeOddByte(acc: u32, wraps: nat, b: seq<u8>, total: nat) returns (wraps': nat)
    requires |b| > 0 && Balanced(acc, wraps, b, |b| - 1, total)
    ensures U32(acc + b[|b| - 1]) + wraps' * TWO32 == total
  {
    assert b[|b| - 1..] == [b[|b| - 1]];
    var k := Carry(acc + b[|b| - 1]);
    wraps' := wraps + k;
  }

  lemma StartWithOddByte(sum: u32, b: seq<u8>) returns (wraps: nat)
    requires |b| % 2 == 1
    ensures Balanced(U32(sum + b[|b| - 1]), wraps, b[..|b| - 1], 0, sum + Total(b))
  {
    OddByteLast(b);
    wraps := Carry(sum + b[|b| - 1]);
    assert b[..|b| - 1][0..] == b[..|b| - 1];
  }

  /** The value both routines are meant to return. */
  function Complement(sum: u32, b: seq<u8>): u16 { ONES - Residue(Finished(sum, b)) }

  /** The sum of 06-router: the odd byte first, then the words. */
  method SumOddFirst(buf: array<u8>, nbytes: nat, sum: u32) returns (acc: u32)
    requires nbytes <= buf.Length
    ensures acc == Finished(sum, buf[..nbytes])
  {
    acc := sum;
    var n, i := nbytes, 0;
    ghost var words, wraps: nat := buf[..nbytes], 0;
    ghost var total := sum + Total(words);
    if n % 2 != 0 {
      n := n - 1;
      wraps := StartWithOddByte(sum, words);
      acc := U32(acc + buf[n]);
      words := words[..n];
    } else {
      assert words[0..] == words;
    }
    ghost var left := n / 2;
    while n > 0
      invariant n == 2 * left && i + n == |words| && words == buf[..i + n]
      invariant Balanced(acc, wraps, words, i, total)
    {
      wraps := TakeWord(acc, wraps, words, i, total);
      acc := U32(acc + Word(buf[i], buf[i + 1]));
      i, n, left := i + 2, n - 2, left - 1;
    }
    assert words[i..] == [];
    IsWrapped(acc, wraps, total);
  }

  /** checksum of 06-router: two folds. */
  method FoldTwiceChecksum(buf: array<u8>, nbytes: nat, sum: u32) returns (r: u16)
    requires nbytes <= buf.Length
    ensures r == Complement(sum, buf[..nbytes])
  {
    var acc := SumOddFirst(buf, nbytes, sum);
    r := ONES - FoldedTwice(acc);
  }

  /** The sum of 08-nat: the words, then the odd byte. */
  method SumOddLast(buf: array<u8>, nbytes: nat, sum: u32) returns (acc: u32)
    requires nbytes <= buf.Length
    ensures acc == Finished(sum, buf[..nbytes])
  {
    acc := sum;
    ghost var b, wraps: nat := buf[..nbytes], 0;
    ghost var total := sum + Total(b);
    assert b[0..] == b;
    for i := 0 to nbytes / 2
      invariant Balanced(acc, wraps, b, 2 * i, total)
    {
      wraps := TakeWord(acc, wraps, b, 2 * i, total);
      acc := U32(acc + Word(buf[2 * i], buf[2 * i + 1]));
    }
    if nbytes % 2 != 0 {
      wraps := TakeOddByte(acc, wraps, b, total);
      acc := U32(acc + buf[nbytes - 1]);
    } else {
      assert b[nbytes..] == [];
    }
    IsWrapped(acc, wraps, total);
  }

  /** The loop that folds until nothing is left above 16 bits. */
  method FoldUntilFits(sum: u32) returns (r: u16)
    ensures r == Residue(sum)
  {
    var acc: u32 := sum;
    while acc / TWO16 != 0
      invariant Residue(acc) == Residue(sum)
      decreases acc
    {
      FoldKeepsResidue(acc);
      acc := Fold(acc);
    }
    SmallResidue(acc);
    r := acc;
  }

  /** checksum of 08-nat. */
  method FoldUntilFitsChecksum(buf: array<u8>, nbytes: nat, sum: u32) returns (r: u16)
    requires nbytes <= buf.Length
    ensures r == Complement(sum, buf[..nbytes])
  {
    var acc := SumOddLast(buf, nbytes, sum);
    r := FoldUntilFits(acc);
    r := ONES - r;
  }

  // ---- The exact bound on the accumulator ----

  lemma {:induction false} TotalBound(b: seq<u8>)
    requires |b| % 2 == 0
    ensures Total(b) <= |b| / 2 * ONES
  {
    if b != [] {
      TotalBound(b[2..]);
    }
  }

  function AllOnes(words: nat): (b: seq<u8>)
    ensures |b| == 2 * words && Total(b) == words * ONES
  {
    if words == 0 then [] else
      var rest := AllOnes(words - 1);
      assert ([0xFF, 0xFF] + rest)[2..] == rest;
      [0xFF, 0xFF] + rest
  }

  ghost predicate NeverOverflows(words: nat) {
    forall b: seq<u8> :: |b| == 2 * words ==> Total(b) < TWO32
  }

  /** From initial sum 0 the accumulator cannot overflow exactly for up to 65537 words. */
  lemma OverflowBoundIsExact(words: nat)
    ensures NeverOverflows(words) <==> words <= MAX_WORDS
  {
    if words <= MAX_WORDS {
      forall b: seq<u8> | |b| == 2 * words ensures Total(b) < TWO32 {
        TotalBound(b);
      }
    } else {
      assert |AllOnes(words)| == 2 * words && Total(AllOnes(words)) >= TWO32;
    }
  }

  // ---- What the value means ----

  function Multiple(q: int): int { q * ONES }

  /** Congruence modulo 65535. */
  ghost predicate Congruent(a: int, b: int) {
    exists q: int :: a - b == Multiple(q)
  }

  lemma ResidueIsCongruent(s: nat) returns (q: nat)
    ensures s == Residue(s) + Multiple(q)
  {
    q := if s == 0 then 0 else (s - 1) / ONES;
  }

  lemma WrapsAreCongruent(total: nat)
    ensures Congruent(total - total / TWO32, Residue(U32(total)))
  {
    var wraps := total / TWO32;
    var q := ResidueIsCongruent(U32(total));
    assert total - wraps - Residue(U32(total)) == Multiple(q + wraps * 65537);
  }

  /** The complement of the returned value is congruent to the word sum modulo 65535, less one for each time
      the 32-bit accumulator wrapped: never, from initial sum 0, for up to 65537 words. */
  lemma ComplementIsSum(sum: u32, b: seq<u8>)
    ensures Congruent(sum + Total(b) - (sum + Total(b)) / TWO32, ONES - Complement(sum, b))
    ensures sum == 0 && |b| % 2 == 0 && |b| <= 2 * MAX_WORDS ==> Congruent(Total(b), ONES - Complement(sum, b))
  {
    WrapsAreCongruent(sum + Total(b));
    if sum == 0 && |b| % 2 == 0 && |b| <= 2 * MAX_WORDS {
      TotalBound(b);
      assert (sum + Total(b)) / TWO32 == 0;
    }
  }

  // ---- Byte order ----

  function Swapped(b: seq<u8>): (r: seq<u8>)
    requires |b| % 2 == 0
    ensures |r| == |b|
    ensures forall k :: 0 <= k < |b| ==> r[k] == b[if k % 2 == 0 then k + 1 else k - 1]
  {
    if b == [] then [] else [b[1], b[0]] + Swapped(b[2..])
  }

  function SwapWord(w: u16): u16 { Word(w / 0x100, w % 0x100) }

  function HighBytes(b: seq<u8>): nat
    requires |b| % 2 == 0
  {
    if b == [] then 0 else b[1] + HighBytes(b[2..])
  }

  lemma {:induction false} SwappedTotal(b: seq<u8>)
    requires |b| % 2 == 0
    ensures 0x100 * Total(b) == Total(Swapped(b)) + HighBytes(b) * ONES
  {
    if b != [] {
      SwappedTotal(b[2..]);
      assert Swapped(b)[2..] == Swapped(b[2..]);
    }
  }

  lemma ResidueShift(x: nat, q: nat)
    requires x == 0 ==> q == 0
    ensures Residue(x + q * ONES) == Residue(x)
  {
    if x > 0 {
      ModShift(x - 1, q);
    }
  }

  lemma SwapResidue(t: nat)
    ensures Residue(0x100 * t) == SwapWord(Residue(t))
  {
    if t > 0 {
      var r, q := Residue(t), (t - 1) / ONES;
      assert t == r + q * ONES;
      assert 0x100 * t == SwapWord(r) + (r / 0x100 + 0x100 * q) * ONES;
      ResidueShift(SwapWord(r), r / 0x100 + 0x100 * q);
      SmallResidue(SwapWord(r));
    }
  }

  lemma {:induction false} ZeroTotal(b: seq<u8>)
    requires |b| % 2 == 0 && (Total(b) == 0 || Total(Swapped(b)) == 0)
    ensures HighBytes(b) == 0
  {
    if b != [] {
      assert Swapped(b)[2..] == Swapped(b[2..]);
      ZeroTotal(b[2..]);
    }
  }

  lemma Bytes(lo: u8, hi: u8)
    ensures Word(lo, hi) / 0x100 == hi && Word(lo, hi) % 0x100 == lo
  {
  }

  lemma SwapComplement(w: u16, c: u16, w': u16, c': u16)
    requires c == ONES - w && c' == ONES - w' && w' == SwapWord(w)
    ensures c' == SwapWord(c)
  {
    var lo: u8, hi: u8 := w % 0x100, w / 0x100;
    assert c == Word(0xFF - lo, 0xFF - hi);
    Bytes(0xFF - lo, 0xFF - hi);
  }

  lemma FromZero(b: seq<u8>)
    requires |b| % 2 == 0 && |b| <= 2 * MAX_WORDS
    ensures Complement(0, b) == ONES - Residue(Total(b))
  {
    TotalBound(b);
    FitsAsIs(Total(b));
  }

  lemma SwapShifted(t: nat, swapped: nat, high: nat)
    requires 0x100 * t == swapped + high * ONES && (swapped == 0 ==> high == 0)
    ensures Residue(swapped) == SwapWord(Residue(t))
  {
    SwapResidue(t);
    ResidueShift(swapped, high);
  }

  lemma SwappedResidue(b: seq<u8>)
    requires |b| % 2 == 0
    ensures Residue(Total(Swapped(b))) == SwapWord(Residue(Total(b)))
  {
    SwappedTotal(b);
    if Total(Swapped(b)) == 0 {
      ZeroTotal(b);
    }
    SwapShifted(Total(b), Total(Swapped(b)), HighBytes(b));
  }

  /** Byte-order independence (section 1 of RFC 1071): a host that reads the bytes of each word in the other
      order computes the same checksum in its own order. */
  lemma ByteOrderIndependent(b: seq<u8>)
    requires |b| % 2 == 0 && |b| <= 2 * MAX_WORDS
    ensures Complement(0, Swapped(b)) == SwapWord(Complement(0, b))
  {
    FromZero(b);
    FromZero(Swapped(b));
    SwappedResidue(b);
    SwapComplement(Residue(Total(b)), Complement(0, b), Residue(Total(Swapped(b))), Complement(0, Swapped(b)));
  }

  // ---- Verifying a stored checksum ----

  lemma {:induction false} TotalUpdate(b: seq<u8>, k: nat, lo: u8, hi: u8)
    requires 2 * k + 1 < |b| && b[2 * k] == 0 && b[2 * k + 1] == 0
    ensures Total(b[2 * k := lo][2 * k + 1 := hi]) == Total(b) + Word(lo, hi)
  {
    var c := b[2 * k := lo][2 * k + 1 := hi];
    if k == 0 {
      assert c[2..] == b[2..];
    } else {
      assert c[2..] == b[2..][2 * (k - 1) := lo][2 * (k - 1) + 1 := hi];
      TotalUpdate(b[2..], k - 1, lo, hi);
    }
  }

  /** Completing a sum to the next multiple of 65535 never wraps, because 2^32 - 1 is such a multiple. */
  lemma CompletionFits(u: u32)
    ensures u + ONES - Residue(u) < TWO32 && Residue(u + ONES - Residue(u)) == ONES
  {
    if u > 0 {
      var q := (u - 1) / ONES;
      assert u + ONES - Residue(u) == ONES + q * ONES;
      ModShift(ONES - 1, q);
    }
  }

  lemma StoredValue(t: nat, c: u16, filled: nat)
    requires c == ONES - Residue(U32(t)) && filled == t + c
    ensures Residue(U32(filled)) == ONES
  {
    var u := U32(t);
    CompletionFits(u);
    assert u + (t / TWO32) * TWO32 == t;
    IsWrapped(u + c, t / TWO32, filled);
  }

  /** A receiver's check, for every buffer and initial sum: with its checksum stored in a zeroed word of a
      buffer, the sum folds to 0xFFFF, so that the checksum of the filled buffer is 0. */
  lemma StoredChecksumVerifies(b: seq<u8>, k: nat, sum: u32, lo: u8, hi: u8)
    requires 2 * k + 1 < |b| && b[2 * k] == 0 && b[2 * k + 1] == 0
    requires Word(lo, hi) == Complement(sum, b)
    ensures Complement(sum, b[2 * k := lo][2 * k + 1 := hi]) == 0
  {
    var filled := b[2 * k := lo][2 * k + 1 := hi];
    TotalUpdate(b, k, lo, hi);
    StoredValue(sum + Total(b), Word(lo, hi), sum + Total(filled));
  }
}
